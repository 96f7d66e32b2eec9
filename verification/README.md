# rinexmerger in Dafny

rinexmerger merges several GNSS navigation files in the RINEX format into one. The
pipeline has three stages:

1. **Read each file.** The RINEX 2 and RINEX 3 navigation readers (`parselib/nav2.py`,
   `parselib/nav3.py`, with the version dispatch of `parselib/base.py`) read every file into:
   - a header dictionary;
   - per satellite and epoch, the coefficient texts of the record.
2. **Merge the files.** `merge_rinexes` in `rinex_merger.py` folds the parsed files into one
   vote table. For every satellite, epoch and coefficient slot it keeps each text with how
   many files gave it (`count`) and which files did (`owners`). It also keeps:
   - one vote per file for the date its name announces;
   - the highest slot index met (`max_i_q`);
   - the header's ionospheric correction coefficients. These are folded the same way and
     decided at once.
3. **Decide and write.** `search_bad_coefs` in `bad_coefs_searcher.py` decides every slot:
   - It first folds near-equal values together (`delete_similar_coefs`).
   - A stable sort by count then gives the accepted (right) value and the rejected (error)
     values.
   - `write_rinex` in `rinex_writer.py` then writes a RINEX 3.03 file: its name comes from
     the most voted date, and every record is padded with zeros to the longest record.

The Dafny project models all three stages.

**Modules.** One module per file:
- `Wrappers`: Option, Result and the Python exceptions as an `Error` datatype.
- `ODicts`: insertion-ordered dictionaries (`ODict(keys, m)`).
- `Text`: Python string slicing, `strip`, `replace`, `int()` and zero-padded formatting.
- `Epochs`: `datetime` validation, `strptime('%y%j')`/`('%Y%j')`, `np.unique`.
- `Tokens`: the coefficient-token scanner of both readers, including its fallback pattern.
- `NavData`: the reader's result, the first-occurrence-wins insertion and `_skip`.
- `Nav3`, `Nav2`: the two readers.
- `NavBase`: the version dispatch.
- `Sorting`: Python's stable `sorted(..., reverse=True)`.
- `Folding`: both `delete_similar_coefs`, as one generic fold.
- `Merger`: the specification of `merge_rinexes`, as functions and lemmas.
- `Merging`: the loops of `merge_rinexes`, as methods proved equal to that specification.
- `Searcher`: `search_bad_coefs`.
- `Writer`: `write_rinex`, and what the whole script (merge, search, write) guarantees.

**How the source maps to Dafny.**
- Every loop of the source that updates variables or dictionaries step by step is a
  `method` with a `while` loop. It is proved equal to a recursive function, and that
  function's properties are proved as lemmas.
- A file is a `seq<string>` of lines, each with its line terminator. The file iterator is
  an index into it.
- Python exceptions are `Err` values.
- Floating point stays outside the model. These are parameters:
  - `near` and `isZero`: the ratio test of the two `delete_similar_coefs`;
  - `align`: `widthAlignCoef`;
  - `subsec`: the microsecond of a RINEX 2 epoch.

## Model

| member | source | states |
|---|---|---|
| Text.Slice | parselib/nav3.py:242 | `s[a:b]` for non-negative bounds: both ends are clamped to the length, and the result length says so |
| Text.ReplaceChar | parselib/nav3.py:75 | `str.replace` of one character: same length, and every occurrence of `x` (and only those) becomes `y` |
| Text.DeleteChar | parselib/nav3.py:68 | `replace('\n', '')`: no occurrence of the character is left, and nothing new appears |
| Text.DeleteCharAppend | parselib/nav3.py:68 | deleting a character distributes over a concatenation, so every other character is kept, in its order |
| Text.DeleteCharOne | parselib/nav3.py:68 | a single character is dropped exactly when it is the deleted one |
| Text.ReplaceCharAppend | parselib/nav3.py:75 | replacing a character distributes over a concatenation |
| Text.Strip | parselib/nav3.py:242 | `str.strip`: never longer than its input (`Text.StripTrimmed` states what it cuts; `Writer.StripPadded` states that it removes added spaces) |
| Text.StripLeftCuts | parselib/nav3.py:242 | `str.lstrip` gives a suffix of its input, everything cut is white space, and the result does not start with white space |
| Text.StripRightCuts | parselib/nav3.py:242 | `str.rstrip` gives a prefix of its input, everything cut is white space, and the result does not end with white space |
| Text.StripTrimmed | parselib/nav3.py:242 | `str.strip` gives a contiguous part of its input, everything cut before and after it is white space, and a non-empty result neither starts nor ends with white space |
| Text.NatToString | rinex_writer.py:42 | `str(n)`: a non-empty column of digits (`Text.ParseZeroPad` states that `int()` reads it back) |
| Text.ZeroPad | rinex_writer.py:42 | `strftime`'s zero-padded fields: all digits, `w` columns or the length of `str(n)` when longer |
| Text.DigitsSpec | parselib/nav3.py:92-97 | a column of digits parses exactly when it is non-empty and all digits, and then to its decimal value |
| Text.ParseInt | parselib/nav3.py:92-97 | `int()` reads only a non-empty input (its values are stated by `Text.ParseIntPlain` and `Text.ParseIntLeftPad`) |
| Text.ParseIntPlain | parselib/nav3.py:92-97 | `int()` reads an optional sign followed by digits as the signed decimal value |
| Text.ParseIntLeftPad | parselib/nav2.py:112 | spaces in front of a column do not change what `int()` reads |
| Text.TruncFloat | parselib/nav2.py:125 | `int(float())` reads only a non-empty input (its values are stated by the lemmas below) |
| Text.DecimalPoint | parselib/nav2.py:125 | a numeral `digits.digits` (not both runs empty) is worth its whole part |
| Text.TruncFloatPoint | parselib/nav2.py:125 | `int(float())` of `[sign]digits.digits` is the sign times the whole part, the fraction cut off rather than rounded |
| Text.TruncFloatWhole | parselib/nav2.py:125 | `int(float())` of `[sign]digits` is the signed decimal value, the same as `int()` reads |
| Text.TruncFloatLeftPad | parselib/nav2.py:125 | spaces in front of a column do not change what `int(float())` reads |
| Text.TruncFloatExamples | parselib/nav2.py:125 | `int(float(" 5.0"))` is 5 and `int(float("-1.5"))` is -1 |
| Text.ParseIntTwoColumns | parselib/nav2.py:112 | `int()` of a slice of at most two columns lies in -9..99, so the two-digit year is never above 99 |
| Text.ParseZeroPad | rinex_writer.py:42 | `int()` reads back the number a zero-padded field of `strftime` wrote |
| Text.ZeroPadWidth | rinex_writer.py:42 | a number below 10^w written zero-padded to `w` digits takes exactly `w` columns |
| Epochs.DayOfYearRange | rinex_merger.py:147 | the `%j` day of a valid epoch lies between 1 and the length of its year |
| Epochs.EpochYearDay | rinex_merger.py:147 | `strftime('%y%j')` of an epoch, as the pair of its two-digit year and its day of the year (`Epochs.DayOfYearRange` bounds the day) |
| Epochs.FileYearDay | rinex_merger.py:147 | `strftime('%y%j')` of a file-name date, as the same pair |
| Epochs.BeforeTotal | parselib/nav3.py:52 | epoch comparison is a strict total order: irreflexive, asymmetric, and any two distinct epochs compare |
| Epochs.BeforeTransitive | parselib/nav3.py:52 | epoch comparison is transitive |
| Epochs.StrpDate | rinex_merger.py:34-38 | `strptime(year + day, '%Y%j')` succeeds exactly for years 1..9999 and days 1..366 (not day 366 of 9999); day 366 of a common year rolls over to 1 January of the next year; an accepted date is always a real day of its year |
| Epochs.InsertSorted | parselib/nav3.py:276 | inserting into a strictly increasing list keeps it strictly increasing and adds exactly the new epoch |
| Epochs.Unique | parselib/nav3.py:276 | `np.unique`: strictly increasing, and holds exactly the epochs of its input |
| Tokens.MatchAt | parselib/nav3.py:70 | a match of `[- ]\d+\.\d+E[+-]\d+` starting at `p` ends after `p` and is maximal: no digit follows it |
| Tokens.MatchAtSound | parselib/nav3.py:70 | every match has the token shape: lead, digits, point, digits, `E`, sign, digits |
| Tokens.MatchAtComplete | parselib/nav3.py:70 | any text of the token shape starting at `p` is found, and the match reaches at least to its end |
| Tokens.MatchAtLongest | parselib/nav3.py:70 | the match at `p` is the longest token starting there |
| Tokens.ScanMatches | parselib/nav3.py:70 | every span `re.findall` reports is a match that starts at the span's start |
| Tokens.ScanComplete | parselib/nav3.py:70 | every position where a match starts lies inside some reported span: the left-to-right scan misses no token |
| Tokens.FindAll | parselib/nav3.py:70 | the spans are in the text, in order, and do not overlap |
| Tokens.Scan | parselib/nav3.py:70 | the left-to-right scan of `re.findall` yields spans inside the text, each non-empty, in order and not overlapping |
| Tokens.FindAllSpans | parselib/nav3.py:70 | each span is a match at its start, and every match start is covered by a span |
| Tokens.Texts | parselib/nav3.py:70 | the matched texts are the slices of the spans, one per span |
| Tokens.Normalize | parselib/nav3.py:68-69 | after the replacements no `D`, `e` or newline is left |
| Tokens.NormalizeAppend | parselib/nav3.py:68-69 | the three replacements work character by character: on a concatenation they give the concatenation, so the kept characters stay in order |
| Tokens.NormalizeOne | parselib/nav3.py:68-69 | one character: a newline is dropped, `D` and `e` become `E`, anything else is kept |
| Tokens.MatchTexts | parselib/nav3.py:70 | every text `re.findall` returns has the token shape |
| Tokens.ExtractTokens | parselib/nav3.py:68-73 | every token a record yields, from the primary pattern or from the fallback, has the full shape `[- ]digits.digitsE[+-]digits` |
| Tokens.PatchAll | parselib/nav3.py:72-73 | the fallback list keeps its length; each token gets its point replaced and then has the full shape |
| Tokens.PatchZeroShape | parselib/nav3.py:73 | a fallback token `[- ].digitsE[+-]digits` becomes its lead, `0`, then the rest: the lead is kept |
| Tokens.PatchZeroNoPoint | parselib/nav3.py:73 | replacing `.` changes nothing in a text without a point |
| Tokens.PatchZero | parselib/nav3.py:73 | `replace('.', '0.')`; its properties are `Tokens.PatchZeroShape` and `Tokens.PatchZeroNoPoint` |
| NavData.InfoHeader | parselib/nav3.py:236 | the header starts as the version-line reader's fields, each as text |
| NavData.Insert | parselib/nav3.py:76-80 | a record is stored only when its (satellite, epoch) pair is new; nothing stored before changes, and nothing else is added |
| NavData.InsertFirstWins | parselib/nav3.py:76-80 | a second record with the same satellite and epoch leaves the first one in place |
| NavData.InsertShaped | parselib/nav3.py:76-80 | storing well-shaped tokens keeps every stored token well shaped |
| NavData.FieldsColumns | parselib/nav3.py:92-97 | the epoch columns parse exactly when every column `int()` accepts, each to its own value |
| NavData.SkipLines | parselib/nav3.py:85-87 | `_skip` passes over exactly `n` lines, or to the end of the file when fewer are left |
| NavData.Gather | parselib/nav3.py:63-66 | the data columns of the epoch line followed by those of the next `n` lines (fewer at the end of the file), and the line after them |
| Nav3.Time | parselib/nav3.py:90-97 | `_time` gives whole-second epochs of lines longer than four columns |
| Nav3.TimeOfColumns | parselib/nav3.py:90-97 | a line has epoch `e` exactly when columns 4:8, 9:11, 12:14, 15:17, 18:20 and 21:23 parse to `e`'s fields and `datetime` accepts them |
| Nav3.StepAtCases | parselib/nav3.py:41-80 | one turn of the record loop: a line starting with a newline ends it; a line without an epoch is passed over; an epoch line of an unknown letter raises KeyError; any other epoch line consumes exactly `Nl[letter]` more lines (fewer at the end of the file), whether it is kept, outside the window or filtered out; a kept record has `line[:3]` with spaces turned to `0` as satellite and columns 23:80 then 4:80 as data |
| Nav3.StepAt | parselib/nav3.py:41-80 | one turn of the record loop; a turn that stores or passes over a record moves forward within the file (`Nav3.StepAtCases` gives the cases) |
| Nav3.Read | parselib/nav3.py:41-82 | the record loop from a line on, one `StepAt` after the other; its properties are `Nav3.ReadKeepsFirst` and `Nav3.ReadShapes` |
| Nav3.EpochStep | parselib/nav3.py:51-66 | the turn for an epoch line: when it consumes lines (through `_skip`), it consumes at least the epoch line and stays within the file |
| Nav3.EpochStepCases | parselib/nav3.py:51-66 | the same cases for a line whose epoch is known |
| Nav3.ReadKeepsFirst | parselib/nav3.py:76-80 | the rest of the file never replaces a record already stored |
| Nav3.ReadShapes | parselib/nav3.py:41-82 | the record loop keeps the dictionaries well formed and every token well shaped |
| Nav3.SpareFields | parselib/nav3.py:100-142 | `_sparefields` succeeds only with exactly `ceil(len(raw)/19)` names; it raises ValueError otherwise, or IndexError for a too-short Beidou list; other systems keep the list as it is |
| Nav3.NewNav | parselib/nav3.py:145-227 | 31 field names for G, C, J, E and I, 15 for R and S, each starting with `SVclockBias`; any other letter raises ValueError, and an empty id raises IndexError |
| Nav3.SpareFieldsOfNewNav | parselib/nav3.py:107-142 | for each system, which field counts the patching accepts; for G 30 values drop the last name and 29 the last two; for E 27 values give `cf[:22] + cf[23:-3]` |
| Nav3.QzssLikeGps | parselib/nav3.py:191-199 | QZSS records carry the GPS field names |
| Nav3.IonoSlices | parselib/nav3.py:250 | the `n` twelve-column slices starting at column 5 |
| Nav3.HeaderLine | parselib/nav3.py:242-253 | a header line is filed under `ln[60:].strip()` with `ln[:60]` as value; an `IONOSPHERIC CORR` line instead adds, under `content[:4].strip()`, 3 slices for `GAL` and 4 otherwise, keeping every other field; it raises TypeError when that key already holds text |
| Nav3.HeaderEnds | parselib/nav3.py:238-240 | the header ends just after the first `END OF HEADER` line, or at the end of the file |
| Nav3.HeaderFrom | parselib/nav3.py:236-253 | the header loop from a line on: a successful reading ends at a line between that one and the end of the file |
| Nav3.HeaderWithoutEnd | parselib/nav3.py:238-240 | a header that runs to the end of the file has no `END OF HEADER` line |
| Nav3.HeaderTables | parselib/nav3.py:243-251 | every correction table the header builds is a well-formed dictionary |
| Nav3.NavHeader3 | parselib/nav3.py:230-255 | the header loop computes the header and the first line after it, as specified line by line |
| Nav3.ReadHeaderLine | parselib/nav3.py:242-253 | one turn of the header loop files the line as `HeaderLine` says |
| Nav3.RinexNav3 | parselib/nav3.py:20-82 | `rinexnav3` gives the header, then the records of the record loop |
| Nav3.Nav3 | parselib/nav3.py:20-82 | the whole reading: the header, then the record loop from the first line after it (`Nav3.RinexNav3` computes it; `NavBase.RinexNavShapes` states its shapes) |
| Nav3.ReadRecords | parselib/nav3.py:41-80 | the record loop stores exactly the records the line-by-line specification keeps |
| Nav3.NextRecord | parselib/nav3.py:43-66 | one turn of the record loop, as `StepAtCases` describes it |
| Nav3.NextEpochRecord | parselib/nav3.py:51-66 | one turn of the record loop for an epoch line |
| Nav3.NavTime3 | parselib/nav3.py:258-276 | `navtime3` succeeds exactly when the header and the epoch loop do, and then returns their epochs sorted, each once |
| Nav3.Times | parselib/nav3.py:267-276 | the `navtime3` loop only appends to the epochs already read, and the one error it raises is KeyError for an unknown system letter |
| Nav3.CollectTimes | parselib/nav3.py:267-274 | the epoch loop collects the epochs of the epoch lines, in file order, skipping `Nl[letter]` lines after each |
| Nav3.NextTime | parselib/nav3.py:268-274 | one turn of the epoch loop moves forward and leaves the outcome of the loop unchanged |
| Nav2.SvType | parselib/nav2.py:41-48 | file type `N` gives `G`, `G` gives `R`, `E` gives `E`; any other type raises NotImplementedError, or KeyError when the header has no `sys` field to report |
| Nav2.ExtraLines | parselib/nav2.py:15-70 | the continuation lines per record are `Nl[header['systems']]`: 7 for G and E, 3 for R; a missing or unknown system raises KeyError |
| Nav2.Rebase | parselib/nav2.py:112-118 | years 80..99 become 19xx, years below 80 become 20xx, and larger values are refused |
| Nav2.TimeNavOfColumns | parselib/nav2.py:110-127 | a line has epoch `e` exactly when columns 3:5 give its rebased year, 6:8, 9:11, 12:14 and 15:17 the month, day, hour and minute, `int(float())` of 17:20 the second, and `datetime` accepts them |
| Nav2.TimeNavYears | parselib/nav2.py:112-118 | every epoch read has a year in 1980..2079: the "unknown year format" error cannot happen for a two-column year |
| Nav2.TimeNav | parselib/nav2.py:110-127 | `_timenav` reads an epoch only from a line longer than three columns (`Nav2.TimeNavOfColumns` states the columns) |
| Nav2.StepAtCases | parselib/nav2.py:50-87 | one turn of the record loop: a line without an epoch is passed over; a line after the window ends the loop; otherwise an unknown `systems` value raises; every epoch line consumes exactly `Nl[systems]` more lines, whether kept or before the window; a kept record has the system letter plus `ln[:2]` with spaces turned to `0` as satellite, and columns 22:79 then 3:79 as data |
| Nav2.StepAt | parselib/nav2.py:50-87 | one turn of the record loop; a turn that stores or passes over a record moves forward within the file (`Nav2.StepAtCases` gives the cases) |
| Nav2.Read | parselib/nav2.py:50-89 | the record loop from a line on, one `StepAt` after the other; its properties are `Nav2.ReadKeepsFirst`, `Nav2.ReadShapes` and `Nav2.ReadWithin` |
| Nav2.EpochStep | parselib/nav2.py:57-71 | the turn for an epoch line: when it consumes lines (through `_skip`), it consumes at least the epoch line and stays within the file |
| Nav2.EpochStepCases | parselib/nav2.py:57-71 | the same cases for a line whose epoch is known |
| Nav2.ReadKeepsFirst | parselib/nav2.py:83-87 | the rest of the file never replaces a record already stored |
| Nav2.ReadShapes | parselib/nav2.py:50-87 | the record loop keeps the dictionaries well formed and every token well shaped |
| Nav2.ReadWithin | parselib/nav2.py:57-62 | with a time window, every stored record lies inside it |
| Nav2.HeaderFrom | parselib/nav2.py:97-105 | the header only gains keys, and ends within the file |
| Nav2.HeaderText | parselib/nav2.py:104-105 | every RINEX 2 header field is text |
| Nav2.HeaderKeeps | parselib/nav2.py:101-105 | a field that no header line names keeps its value |
| Nav2.HeaderLatest | parselib/nav2.py:101-105 | a field holds the content of the last header line of its kind: later lines overwrite earlier ones |
| Nav2.NavHeader2 | parselib/nav2.py:91-107 | the header loop computes the header and the first line after it, as specified line by line |
| Nav2.RinexNav2 | parselib/nav2.py:18-89 | `rinexnav2` gives the header, the system letter of the file type, then the records of the record loop |
| Nav2.Nav2 | parselib/nav2.py:18-89 | the whole reading: header, system letter, then the record loop (`Nav2.RinexNav2` computes it; `NavBase.RinexNavShapes` states its shapes) |
| Nav2.ReadRecords | parselib/nav2.py:50-87 | the record loop stores exactly the records the line-by-line specification keeps |
| Nav2.NextRecord | parselib/nav2.py:51-71 | one turn of the record loop, as `StepAtCases` describes it |
| Nav2.NextEpochRecord | parselib/nav2.py:57-71 | one turn of the record loop for an epoch line |
| Nav2.EpochOf | parselib/nav2.py:147 | the epoch reader of the time loop reads every line as `_timenav` does |
| Nav2.NavTime2 | parselib/nav2.py:134-156 | `navtime2` succeeds exactly when its epoch loop does, and then returns the epochs sorted, each once |
| Nav2.Times | parselib/nav2.py:142-156 | the `navtime2` loop only appends to the epochs already read, and the one error it raises is the failed lookup of the continuation count |
| Nav2.CollectTimes | parselib/nav2.py:142-154 | the epoch loop collects the epochs up to the first empty read, skipping `Nl[systems]` lines after each |
| Nav2.NextTime | parselib/nav2.py:143-154 | one turn of the epoch loop moves forward and leaves the outcome of the loop unchanged |
| NavBase.RinexNav | parselib/base.py:19-24 | a version other than 2 and 3 raises LookupError; the dispatch of versions 2 and 3 to the two readers is the definition itself, and `NavBase.RinexNavShapes` states what a successful reading holds |
| NavBase.RinexNavShapes | parselib/base.py:11-26 | a file that reads without error has version 2 or 3, well-formed dictionaries, and only well-shaped tokens |
| Sorting.InsertDesc | rinex_merger.py:178 | one insertion step of the sort: one element more, and the same elements |
| Sorting.InsertDescSorted | rinex_merger.py:178 | inserting keeps the order by non-increasing weight |
| Sorting.SortDesc | rinex_merger.py:178 | the sort is a permutation of its input |
| Sorting.SortDescSorted | rinex_merger.py:178 | the sort orders by non-increasing weight |
| Sorting.SortDescStable | rinex_merger.py:178 | the sort is stable: the elements of any one weight keep their input order |
| Sorting.SortDescFirst | rinex_merger.py:178 | the first element of the sort has the greatest weight, and it is the first element of that weight in the input |
| Folding.Sweep | rinex_merger.py:7-17 | the nested loops of `delete_similar_coefs` keep one value slot per key |
| Folding.Initial | rinex_merger.py:7 | the value slots start as the dictionary's values, in key order |
| Folding.Survivors | rinex_merger.py:19-22 | the rebuilt dictionary holds only input keys, in their input order |
| Folding.SurvivorsLive | rinex_merger.py:19-22 | the rebuilt dictionary is well formed and holds exactly the keys whose value is not `None`, with those values |
| Folding.Folded | rinex_merger.py:5-24 | `delete_similar_coefs` returns some of its input keys, in their input order |
| Folding.FoldedValid | rinex_merger.py:19-24 | the result is a well-formed dictionary |
| Folding.SweepPairs | rinex_merger.py:7-17 | the nested loops compute the fold's value slots |
| Folding.Rebuild | rinex_merger.py:19-22 | the rebuilding loop computes the survivors |
| Folding.DeleteSimilar | rinex_merger.py:5-24 | the whole `delete_similar_coefs` computes the fold |
| Folding.SweepTotal | rinex_merger.py:16-17 | when merging two values adds their weights, the fold keeps the total weight |
| Folding.SweepLive | rinex_merger.py:10-17 | a live value never disappears: some key is live at the end |
| Folding.SweepDeadAndZero | rinex_merger.py:10-13 | a key already set to `None` stays dead, and a zero key never absorbs another |
| Folding.SweepKeeps | bad_coefs_searcher.py:11-14 | any property that merging preserves holds of every value after the sweep |
| Folding.SurvivorsTotal | rinex_merger.py:19-22 | rebuilding keeps the total weight |
| Folding.FoldedTotal | rinex_merger.py:5-24 | `delete_similar_coefs` keeps the total weight |
| Folding.FoldedKeeps | bad_coefs_searcher.py:1-21 | any property that merging preserves holds of every surviving value |
| Folding.FoldedNonEmpty | rinex_merger.py:5-24 | a non-empty dictionary keeps at least one key |
| Folding.FoldedZero | rinex_merger.py:13 | a zero key that survives keeps its own value |
| Folding.AbsorbSeparated | rinex_merger.py:10-17 | one step of the inner loop keeps every pair already visited free of a non-zero key near another live key, and clears the pair it visits |
| Folding.SweepSeparated | rinex_merger.py:7-17 | after the nested loops, no two different live keys are a non-zero key and a key near it |
| Folding.FoldedSeparated | rinex_merger.py:5-24 | `delete_similar_coefs` leaves no two different keys of which the first is non-zero and near the second |
| Folding.SweepAlone | rinex_merger.py:7-17 | a key near no other key, either way round, keeps its value through the nested loops |
| Folding.FoldedAlone | rinex_merger.py:5-24 | a key near no other key, either way round, survives `delete_similar_coefs` with its own value |
| Merger.SearchName | rinex_merger.py:27 | `re.search` finds the first position where either file-name pattern matches, and none before it |
| Merger.SearchNameAt | rinex_merger.py:27 | the search stops at `p` when a form matches there and none matched before |
| Merger.Pivot | rinex_merger.py:34 | `%y`: a two-digit year becomes the year 1969..2068 with those last two digits |
| Merger.DateFromFileName | rinex_merger.py:26-42 | a name matching neither pattern anywhere raises "Invalid file naming"; a date that does not exist raises ValueError; an accepted date is a real day of a year 1..9999 |
| Merger.ShortNameDate | rinex_merger.py:27-34 | a name whose first match, at any position `p`, is the short form is dated by `strptime(yy + ddd, '%y%j')` of the digits read at `p` |
| Merger.LongNameDate | rinex_merger.py:27-38 | a name whose first match, at `p`, is not the short form has the long form there and is dated by `strptime(yyyy + ddd, '%Y%j')` of the digits read at `p` |
| Merger.PathNameDate | rinex_merger.py:26-34 | a path as the glob of `script.py` gives it, `rintest/abcd0010.19n`, is dated from the name after the directory: day 1 of 2019 |
| Merger.Label | rinex_merger.py:47 | the label of a correction string is the first run of at least two letters, taken whole (up to the first non-letter), and there is none exactly when no two letters stand side by side |
| Merger.IonoMatchAtSound | rinex_merger.py:50 | every match of `\d\.\d+[E].\d\d` has that shape |
| Merger.IonoFindAll | rinex_merger.py:50 | every value `re.findall` returns has the shape `\d\.\d+E.\d\d` |
| Merger.IonoFindAllComplete | rinex_merger.py:50 | the values are the texts of the left-to-right scan, and every match start lies in one of them |
| Merger.Upcase | rinex_merger.py:45 | after the replacements no `D` or `e` is left |
| Merger.ParseIonosphericCor | rinex_merger.py:44-52 | at most one label, present exactly when the string has two letters side by side, holding every value of the string |
| Merger.IonLine | rinex_merger.py:61-66 | every `ION ALPHA`/`ION BETA` value has the token shape |
| Merger.AlphaBeta | rinex_merger.py:58-72 | with both `ION ALPHA` and `ION BETA`, the table is `GPSA` then `GPSB` with their values; without both it is empty; a table where text is expected raises AttributeError |
| Merger.GetIonosphericCor | rinex_merger.py:54-80 | `IONOSPHERIC CORR` overrides `ION ALPHA`/`ION BETA`; a text value is parsed and a table is taken as it is; without either, the table is empty; only a table under `ION ALPHA`/`ION BETA` raises |
| Merger.Tick | rinex_merger.py:117-120 | `d[key] += 1` in two branches: the key is added when new, its value is advanced when present, and nothing else changes |
| Merger.TickAt | rinex_merger.py:134-142 | counting a value at index `idx` opens the slot when it is new and changes no other slot |
| Merger.TickAll | rinex_merger.py:134-142 | counting a list gives one slot per index of the longer of the tally and the list |
| Merger.TickAllCount | rinex_merger.py:134-142 | after counting a list, each value's count at an index grows by one exactly when the list has that value there |
| Merger.TickAllSlotCount | rinex_merger.py:134-142 | the same for any index, a slot past both lengths counting nothing |
| Merger.TickAllSlotKeys | rinex_merger.py:134-142 | counting a list opens, in the slot of each index, a key for a value new to that slot, after the keys already there |
| Merger.IonoPutCount | rinex_merger.py:131-142 | counting one label's list adds one vote for the value at each index of that label and changes no other label's count |
| Merger.IonoPutKeys | rinex_merger.py:131-142 | counting one label's list appends, to the slot of each index, the value there when new, and leaves other labels' slots alone |
| Merger.IonoHitNext | rinex_merger.py:131 | a label of the table is the label at hand or one after it, never both |
| Merger.IonoValueNext | rinex_merger.py:131 | the same for the value a label gives at an index |
| Merger.IonoFromCount | rinex_merger.py:129-142 | counting a file's correction table adds one vote for `v` in slot `idx` of label `g` exactly when the table gives `g` the value `v` at `idx` |
| Merger.IonoFromKeys | rinex_merger.py:129-142 | counting a file's correction table appends to each slot the value the table gives there, when it is new to the slot |
| Merger.FileStepIonoCount | rinex_merger.py:115-142 | one file adds to each correction count exactly when it read, its name is dated and its table gives that value there |
| Merger.FileStepIonoKeys | rinex_merger.py:115-142 | one file appends to each correction slot the value it gives there, when new |
| Merger.MergeFromIonoCount | rinex_merger.py:114-142 | the file loop adds to each correction count the number of files that give that value there |
| Merger.MergeFromIonoKeys | rinex_merger.py:114-142 | the file loop lists each correction slot's values in the order the files first give them |
| Merger.FirstSeenAppend | rinex_merger.py:136-142 | first-seen order over two lists in turn is first-seen order over their concatenation |
| Merger.FirstSeenOne | rinex_merger.py:136-142 | seeing one value appends it exactly when it is new |
| Merger.TickAllOK | rinex_merger.py:161-172 | counting keeps any property that the first entry has and that a further count preserves |
| Merger.Store | rinex_merger.py:150-154 | storing a record adds only its (satellite, epoch) pair and changes no other record |
| Merger.AddRecord | rinex_merger.py:150-172 | counting a record into the merge keeps the nested dictionaries well formed |
| Merger.EpochsFrom | rinex_merger.py:145-172 | the epoch loop of one satellite raises only "Missed coefs" |
| Merger.SvsFrom | rinex_merger.py:144-172 | the satellite loop of one file raises only "Missed coefs" |
| Merger.AddRecordOK | rinex_merger.py:161-172 | counting a non-empty record keeps every count equal to its number of owners and every record within `max_i_q + 1` slots |
| Merger.AddRecordReached | rinex_merger.py:160-162 | after counting a non-empty record, `max_i_q` is still zero or the last index of some record, now the larger of the old value and the record's last index |
| Merger.TickAllOwners | rinex_merger.py:161-172 | counting a file's list appends the file to the owners of value `v` at index `i` exactly when the list has `v` at `i`; every other owner list is unchanged |
| Merger.AddRecordOwners | rinex_merger.py:150-172 | counting a record of satellite `sv` at epoch `t` appends the file to the owners of `(s, u, i, v)` exactly when `(s, u)` is `(sv, t)` and the record has `v` at `i`; every other owner list is unchanged |
| Merger.EpochsFromOwners | rinex_merger.py:145-172 | the epoch loop appends the file to the owners of `(sv, u, i, v)` exactly when an epoch `u` it reaches on the file's day has `v` at `i`, the loop stopping at the first epoch of another day; every other owner list is unchanged |
| Merger.SvGivesIff | rinex_merger.py:144-148 | the satellite loop reaches record `(s, u)` with `v` at `i` exactly when the file holds satellite `s` and its epoch loop does |
| Merger.SvsFromOwners | rinex_merger.py:144-172 | the satellite loop appends the file to the owners of `(s, u, i, v)` exactly when it reaches record `(s, u)` with `v` at `i` |
| Merger.FileStepOwners | rinex_merger.py:115-172 | one file appends its name to the owners of `(s, u, i, v)` exactly when it reads and its record `(s, u)` is counted with `v` at `i`; a failed reading adds no owner |
| Merger.MergeFromOwners | rinex_merger.py:115-172 | the file loop appends to each owner list the names of the files that give `v` at `i` for `(s, u)`, in the order the files are given |
| Merger.AddRecordDays | rinex_merger.py:145-148 | every merged epoch stays on a day some file name announced |
| Merger.EpochsFromOK | rinex_merger.py:145-172 | the epoch loop keeps these invariants, including that `max_i_q` is zero or reached by some record, and never lowers `max_i_q` |
| Merger.SvsFromOK | rinex_merger.py:144-172 | the satellite loop keeps these invariants, including that `max_i_q` is zero or reached by some record, and never lowers `max_i_q` |
| Merger.IonoFromOK | rinex_merger.py:131-142 | the correction fold keeps every tally slot well formed and non-empty |
| Merger.FileStepOK | rinex_merger.py:115-172 | one file keeps the invariants; its name has a date, and that date gets exactly one more vote |
| Merger.MergeFromOK | rinex_merger.py:115-172 | the file loop keeps the invariants, including that `max_i_q` is zero or reached by some record, and never lowers `max_i_q` |
| Merger.TickVoteSum | rinex_merger.py:117-120 | a vote adds exactly one to the sum of the votes |
| Merger.MergeFromVotes | rinex_merger.py:115-127 | every file casts exactly one vote, including a file whose reading fails |
| Merger.FileStepVotes | rinex_merger.py:116-120 | a file that is merged has a dated name, and that date gets one more vote |
| Merger.MergeFromKeeps | rinex_merger.py:117-120 | a date once voted for stays in the votes |
| Merger.MergeFromDated | rinex_merger.py:116 | every voted date is a real day of a year 1..9999 |
| Merger.MergeFromDates | rinex_merger.py:116-120 | every file's name has a date, and that date is among the votes |
| Merger.FileStep | rinex_merger.py:115-172 | one turn of the file loop (vote, pass over a failed reading, count corrections and records); its properties are `Merger.FileStepOK`, `Merger.FileStepVotes` and `Merger.FileStepOwners` |
| Merger.MergeFrom | rinex_merger.py:115-172 | the file loop, one `FileStep` after the other; its properties are `Merger.MergeFromOK`, `Merger.MergeFromVotes` and `Merger.MergeFromOwners` |
| Merger.IonoFrom | rinex_merger.py:131-142 | the correction fold of one file, label by label; `Merger.IonoFromOK` states that it keeps every tally slot well formed and non-empty |
| Merger.KeysFloat | rinex_merger.py:7-8 | every key of a tally is text `float()` accepts |
| Merger.DeleteSimilarCounts | rinex_merger.py:5-24 | `delete_similar_coefs` over counts raises ValueError when `float()` refuses some key, and otherwise computes the fold with counts added |
| Merger.DeleteSimilarCountsTotal | rinex_merger.py:5-24 | the fold keeps the total count of a slot |
| Merger.WinnerFirstMax | rinex_merger.py:176-178 | a slot is decided exactly when it is non-empty and `float()` (line 8) accepts all its keys; otherwise it raises ValueError for a refused key, and IndexError for an empty slot; the accepted value is a key of the slot that survives the fold with a count no other survivor exceeds, and of the values with that count it comes first |
| Merger.FoldedFirstMax | rinex_merger.py:176-178 | the head of a non-empty folded slot sorted by count is a key of the slot, of greatest count, and the first such among the survivors |
| Merger.Winner | rinex_merger.py:176-178 | the accepted value of a slot: ValueError when `float()` (line 8) refuses a key, IndexError for an empty slot, otherwise a surviving key of greatest count, the first such among the survivors |
| Merger.MergeRule | rinex_merger.py:176-178 | the merge decides every slot as `Winner` does |
| Merger.MergeRuleDecides | rinex_merger.py:176-178 | a slot of a well-formed tally is decided exactly when `float()` (line 8) accepts all its keys, and otherwise raises ValueError |
| Merger.WinnerFloat | rinex_merger.py:7-8 | an accepted value is text `float()` accepts |
| Merger.WinnersOnly | rinex_merger.py:175-178 | the decisions of a label's indexes succeed exactly when every index is decided, and fail with the one error the rule can raise |
| Merger.ConsensusOnly | rinex_merger.py:174-178 | the consensus of the first `n` labels succeeds exactly when every index of each is decided, and fails with the one error the rule can raise |
| Merger.MergeRuleConsensus | rinex_merger.py:174-183 | the consensus of a well-formed tally succeeds exactly when `float()` (line 8) accepts every value in it, and otherwise raises ValueError |
| Merger.MergeFromFloats | rinex_merger.py:129-142 | after the file loop, every value in the correction tally is text `float()` accepts exactly when every value some file's correction table gave is |
| Merger.Winners | rinex_merger.py:175-183 | one decision per index |
| Merger.WinnersOK | rinex_merger.py:175-183 | when every index is decided, the list holds each index's decision at that index |
| Merger.WinnersErr | rinex_merger.py:175-178 | the first index that raises decides the outcome |
| Merger.ConsensusOK | rinex_merger.py:174-183 | the header table holds exactly the labels that have at least one index, each with the decision of every index in order |
| Merger.ConsensusErr | rinex_merger.py:174-178 | the first label that raises decides the outcome |
| Merger.Consensus | rinex_merger.py:174-183 | the header table of the first `n` labels; its properties are `Merger.ConsensusOK` and `Merger.ConsensusErr` |
| Merging.MergeOfSound | rinex_merger.py:83-187 | a merge that succeeds holds all of `MergeOfVotes`, `MergeOfRecords` and `MergeOfIono` |
| Merging.MergeOfVotes | rinex_merger.py:115-120 | a merge that succeeds has one vote per file, for the date its name announces |
| Merging.MergeOfRecords | rinex_merger.py:144-172 | a merge that succeeds has sound records within `max_i_q + 1` slots, some record exactly that long unless `max_i_q` is 0, on days some name announced |
| Merging.MergeOfIono | rinex_merger.py:129-183 | a merge that succeeds had only values `float()` accepts in its correction tally, and has in its header exactly the labels with a value, each with the accepted value of every index |
| Merging.MergeOfFails | rinex_merger.py:129-183 | once the file loop succeeds, the merge succeeds exactly when `float()` (line 8) accepts every correction value some file gave, and otherwise raises ValueError |
| Merging.MergeOfIonoCounts | rinex_merger.py:114-142 | in a merge that succeeds, the count of value `v` in slot `idx` of label `g` is the number of files whose correction table gives `g` the value `v` at `idx`; every such value has its entry; and the slot lists its values in the order the files first give them, which is the order the vote's ties are broken in |
| Merging.MergeOfOwners | rinex_merger.py:83-172 | in a merge that succeeds, the owners of value `v` at slot `i` of record `(s, u)` are exactly the files, in the order given, whose record `(s, u)` was counted with `v` at `i`; the count is their number; and every value some file gave has its entry |
| Merging.MergeOf | rinex_merger.py:83-187 | `merge_rinexes`: the file loop, then the consensus of the corrections, which raises ValueError for a value `float()` refuses; its properties are the lemmas above and `Merging.MergeOfFails` |
| Merging.TickAllNext | rinex_merger.py:134 | counting one more element of a list is one more step of `TickAt` |
| Merging.CountVote | rinex_merger.py:135-142 | one vote of the correction loop updates the tally as `TickAt` says |
| Merging.CountIono | rinex_merger.py:134-142 | the `enumerate` loop counts the whole list |
| Merging.FoldIono | rinex_merger.py:131-142 | the correction loop computes the correction fold |
| Merging.CountCoef | rinex_merger.py:164-172 | one coefficient opens a new entry (count 1, this file as owner) or adds one count and appends this file as owner |
| Merging.CountCoefs | rinex_merger.py:161-172 | the coefficient loop counts every coefficient, and `max_i_q` becomes at least the last index |
| Merging.FoldRecord | rinex_merger.py:150-172 | one record is counted into the merge, with `max_i_q` raised to its last index |
| Merger.EpochsFromNext | rinex_merger.py:145-172 | one turn of the epoch loop is one step of its specification |
| Merging.FoldEpochs | rinex_merger.py:145-172 | the epoch loop computes the epoch fold, including the early stop and "Missed coefs" |
| Merging.FoldSvs | rinex_merger.py:144-172 | the satellite loop computes the satellite fold |
| Merging.CountDate | rinex_merger.py:117-120 | the vote of one file for its date |
| Merging.FoldFile | rinex_merger.py:115-172 | one turn of the file loop: vote, skip on a failed reading, else corrections and records |
| Merging.WinnerOf | rinex_merger.py:176-178 | the decision of a slot as the merge rule makes it: the accepted value, ValueError when `float()` refuses a key, IndexError for an empty slot |
| Merging.WinnersOf | rinex_merger.py:175-183 | the decisions of every index of a label, or the error of the first index that raises |
| Merging.ConsensusStep | rinex_merger.py:175-183 | one label of the consensus loop extends the table as specified, or raises as specified |
| Merging.ConsensusOf | rinex_merger.py:174-183 | the consensus loop computes the header table, or the error of the first slot that raises |
| Merging.MergeRinexes | rinex_merger.py:83-187 | `merge_rinexes` computes the specified merge, its errors included |
| Searcher.CoefsOf | bad_coefs_searcher.py:33-38 | each error entry is the folded entry of its value, in order |
| Searcher.Values | bad_coefs_searcher.py:30-38 | the values of a verdict: the right value first, then the errors in order |
| Searcher.VerdictOf | bad_coefs_searcher.py:30-38 | a verdict built from a sorted key list lists exactly those keys, in that order |
| Searcher.JudgeValues | bad_coefs_searcher.py:27-38 | the verdict lists the folded keys in sorted order, each with its own count and owners |
| Searcher.JudgeDecides | bad_coefs_searcher.py:28-30 | a slot is decided exactly when it is non-empty; an empty slot raises IndexError |
| Searcher.JudgeCovers | bad_coefs_searcher.py:30-38 | every surviving key appears exactly once, as the right value or as one error value, with its own entry |
| Searcher.VerdictRight | bad_coefs_searcher.py:28-31 | after the sort, the right value has the greatest count, and it is the first key with that count |
| Searcher.JudgeRight | bad_coefs_searcher.py:27-31 | the right value's count is at least every surviving count, and of the keys with that count it comes first |
| Searcher.Judge | bad_coefs_searcher.py:27-38 | one slot: folded, sorted by count, the first value right and the rest errors; an empty slot raises IndexError (its properties are the `Judge*` lemmas) |
| Searcher.VerdictOrder | bad_coefs_searcher.py:28-38 | the errors of a sorted list have counts in non-increasing order, none above the right count |
| Searcher.JudgeOrder | bad_coefs_searcher.py:28-38 | `error_coefs` are in non-increasing count order, none above `rigth_coef` |
| Searcher.JudgeStable | bad_coefs_searcher.py:28 | values of the same count keep their dictionary order |
| Searcher.ClearedSound | bad_coefs_searcher.py:1-21 | the fold keeps the dictionary well formed, keeps input keys in order, keeps `count == len(owners)` and keeps the total count |
| Searcher.JudgeOwners | bad_coefs_searcher.py:1-38 | the right entry and every error entry have `count == len(owners)` |
| Searcher.SearchRule | bad_coefs_searcher.py:26-43 | the search judges every slot as `Judge` does |
| Searcher.RecordVerdicts | bad_coefs_searcher.py:25-43 | one verdict per slot |
| Searcher.RecordVerdictsOK | bad_coefs_searcher.py:25-43 | when every slot is decided, each slot's verdict is at its index |
| Searcher.RecordVerdictsErr | bad_coefs_searcher.py:25-31 | the first slot that raises decides the outcome |
| Searcher.EpochVerdictsOK | bad_coefs_searcher.py:24-43 | the epoch loop keeps the epochs in order, each with its record's verdicts |
| Searcher.SearchOK | bad_coefs_searcher.py:23-45 | the satellite loop keeps the satellites in order, each with its epochs' verdicts |
| Searcher.EpochVerdictsFrom | bad_coefs_searcher.py:25-43 | the epoch loop of one satellite, one record of verdicts per epoch; `Searcher.EpochVerdictsOK` states it |
| Searcher.SearchFrom | bad_coefs_searcher.py:24-43 | the satellite loop, one satellite of verdicts after the other; `Searcher.SearchOK` states it |
| Searcher.RecordDecided | bad_coefs_searcher.py:25-43 | every slot of a sound record is decided, by `Judge`, with `count == len(owners)` |
| Searcher.MergedSlots | rinex_merger.py:161-172 | every slot of a merged record is sound |
| Searcher.SatelliteDecided | bad_coefs_searcher.py:24-43 | every epoch of a merged satellite is decided, and the epoch keys are unchanged |
| Searcher.SearchShape | bad_coefs_searcher.py:23-45 | on merged data the search succeeds, keeps the satellite and epoch keys, and replaces each slot by its verdict |
| Searcher.SearchVerdict | bad_coefs_searcher.py:23-45 | each slot of each merged record becomes the `Judge` verdict of that slot, with as many slots as before, and its right entry has `count == len(owners)` |
| Searcher.DeleteSimilarCoefs | bad_coefs_searcher.py:1-21 | `delete_similar_coefs` computes the fold, adding counts and appending the absorbed owners after the absorber's |
| Searcher.ErrorCoefs | bad_coefs_searcher.py:33-38 | the error loop lists the entry of each remaining key in sorted order |
| Searcher.JudgeSlot | bad_coefs_searcher.py:26-43 | the body of the slot loop judges the slot as the search rule does |
| Searcher.JudgeRecord | bad_coefs_searcher.py:25-43 | the slot loop computes the verdicts of a record |
| Searcher.JudgeEpochs | bad_coefs_searcher.py:24-43 | the epoch loop computes the verdicts of a satellite |
| Searcher.SearchBadCoefs | bad_coefs_searcher.py:23-45 | `search_bad_coefs` computes the specified search |
| Writer.ChooseDate | rinex_writer.py:18 | the chosen date is a voted date |
| Writer.ChooseDateMost | rinex_writer.py:18 | the chosen date has the most votes, and of the dates with that many it was voted for first; no votes at all raises IndexError |
| Writer.FileName | rinex_writer.py:22 | the file name is twelve characters long |
| Writer.FileNameReads | rinex_writer.py:22 | the file name, dated as the merger dates file names, gives the day of the year and the year with its century re-chosen in 1969..2068 |
| Writer.FileNameRoundTrip | rinex_writer.py:22 | for a year in 1969..2068 the file name dates back to the chosen date itself |
| Writer.PivotYear | rinex_writer.py:22 | a year in 1969..2068 is recovered from its last two digits |
| Writer.AlignKey | rinex_writer.py:8-11 | `widthAlignKey` starts with the key, fills with spaces, and has length `max(4, len(key))` |
| Writer.AddOds | rinex_writer.py:13-15 | `add_ods` keeps the list as a prefix, fills with the 11-space blank, and has length `max(4, len(list))` |
| Writer.Aligned | rinex_writer.py:32 | every coefficient is formatted by `widthAlignCoef`, in order (only reached when `float()` accepts them all; `Writer.WriteHeader` raises ValueError otherwise) |
| Writer.ColumnsAt | rinex_writer.py:35 | fields of eleven columns each sit at twelve-column steps after the label |
| Writer.StripPadded | parselib/nav3.py:242 | `strip` removes the spaces added to a word |
| Writer.IonoLineKind | rinex_writer.py:35 | the reader files every written correction line as `IONOSPHERIC CORR` |
| Writer.TailKind | rinex_writer.py:35 | what follows column 60 of a correction line is `IONOSPHERIC CORR` once stripped |
| Writer.IonoLineLabel | rinex_writer.py:35 | the reader recovers the label from the first four columns |
| Writer.IonoLineFields | rinex_writer.py:35 | the reader's `k`-th twelve-column slice is the `k`-th written field |
| Writer.IonoLineReads | rinex_writer.py:31-35 | a written correction line, read back by the RINEX 3 header reader, files its label with 3 or 4 of the written fields |
| Writer.EpochReads | rinex_writer.py:41-42 | the start of a written record, read back by `_time`, gives the record's epoch |
| Writer.EpochColumns | rinex_writer.py:41-42 | the written epoch puts the year, month, day, hour, minute and second in the columns `_time` reads |
| Writer.Cells | rinex_writer.py:43-53 | the fields of a record: its values, then zeros up to slot `max_i_q`, so `max_i_q + 1` fields when no record is longer |
| Writer.GlueSpread | rinex_writer.py:43-48 | the value loop written left to right equals its prefix followed by the rest |
| Writer.SpreadContinuation | rinex_writer.py:43-48 | from slot 3 on, the values go four to a line |
| Writer.SpreadTail | rinex_writer.py:43-48 | the last continuation line holds what is left |
| Writer.ContinuationLine | rinex_writer.py:43-48 | a continuation line holds four values |
| Writer.LineBreaks | rinex_writer.py:47 | among slots 3 and up, a break follows every fourth one |
| Writer.SpreadLine | rinex_writer.py:43-48 | four values and a break, then the rest |
| Writer.SpreadBreak | rinex_writer.py:47-48 | a break follows a breaking slot that is not the last |
| Writer.GlueLayout | rinex_writer.py:43-48 | breaking only when more values follow gives the RINEX 3 layout: three values on the epoch line, four on each continuation line, no empty line |
| Writer.SpreadShort | rinex_writer.py:43-48 | up to three values stay on the epoch line |
| Writer.SpreadLong | rinex_writer.py:43-48 | more values go three on the epoch line, then four per line |
| Writer.GlueAgree | rinex_writer.py:43-48 | the written prefix depends only on the values written so far |
| Writer.PaddingGlue | rinex_writer.py:50-53 | the padding loop continues the value loop as if the zeros were further values |
| Writer.PaddingFromLast | rinex_writer.py:50 | the padding starts right after the last value |
| Writer.PaddingStep | rinex_writer.py:51-53 | one padding turn writes the next zero with its break |
| Writer.GlueLast | rinex_writer.py:47 | no break follows the last value in the corrected rule; as written, none follows it either unless the record has exactly three values (`Writer.WrittenThree`) |
| Writer.RecordValuesLayout | rinex_writer.py:43-53 | with the corrected break rule, a record's values and its zeros take the RINEX 3 layout of `max_i_q + 1` fields |
| Writer.WrittenValuesAgree | rinex_writer.py:47 | the break rule as written agrees with the corrected one except on a record of exactly three values |
| Writer.WrittenRecordValuesDiffer | rinex_writer.py:43-53 | as written, a record of exactly three values gets an extra break after slot 2, so its text differs from the layout; any other record is laid out correctly |
| Writer.WrittenThree | rinex_writer.py:47-48 | as written, three values end in a break |
| Writer.ThreeValuesExample | rinex_writer.py:43-53 | the values `a`, `b`, `c` with `max_i_q` 2 are written as `abc` and an empty continuation line, where the layout is `abc` |
| Writer.Rights | rinex_writer.py:45 | the written values are the right values of the slots, in slot order |
| Writer.RecordsOf | rinex_writer.py:40-57 | every record of a satellite is written as the source writes it: the satellite, a space, the epoch, the values by the source's break rule, and a newline |
| Writer.WriteHeader | rinex_writer.py:26-36 | the header is the version line, one correction line per label in label order, and the end line; a coefficient `float()` refuses raises ValueError |
| Writer.WriteValues | rinex_writer.py:43-53 | the value and padding loops write the right values and the zeros as the source does, with its break after slot 2; that is the RINEX 3 layout of the record's fields exactly when the record does not have three values |
| Writer.WriteRecord | rinex_writer.py:41-57 | one record as `RecordsOf` writes it, with the source's break rule |
| Writer.WriteSatellite | rinex_writer.py:40-57 | the epoch loop writes the satellite's records in epoch order |
| Writer.WriteData | rinex_writer.py:39-57 | the satellite loop writes every record in satellite order |
| Writer.WriteDate | rinex_writer.py:18 | the date of the file is the most voted one |
| Writer.WriteRinex | rinex_writer.py:17-58 | `write_rinex` gives the file name of the chosen date and the header followed by the records, written with the source's break rule, or the IndexError or ValueError it raises |
| Writer.EpochText | rinex_writer.py:42 | `strftime('%Y %m %d %H %M %S')`; `Writer.EpochColumns` and `Writer.EpochReads` state what the reader gets back from it |
| Writer.IonoLine | rinex_writer.py:31-35 | one `IONOSPHERIC CORR` line; `Writer.IonoLineReads` states that the RINEX 3 header reader gets back its label and fields |
| Writer.IonoLines | rinex_writer.py:31-35 | the correction lines of the first `k` labels, in the table's order (`Writer.WriteHeader` computes them) |
| Writer.HeaderText | rinex_writer.py:26-36 | the version line, the correction lines and the end line (`Writer.WriteHeader` computes it) |
| Writer.Padding | rinex_writer.py:50-53 | the padding loop: a break when `(i - 2) % 4 == 0`, then a zero; `Writer.PaddingGlue` and `Writer.PaddingStep` state it |
| Writer.WrittenValues | rinex_writer.py:44-48 | the value loop as written, with its break after slot 2; `Writer.WrittenValuesAgree` and `Writer.WrittenThree` compare it with the corrected rule |
| Writer.WrittenRecordValues | rinex_writer.py:43-53 | the two loops as written; `Writer.WrittenRecordValuesDiffer` states where they leave the RINEX 3 layout |
| Writer.RecordValues | rinex_writer.py:43-53 | the two loops with the corrected break rule; `Writer.RecordValuesLayout` states that they give the RINEX 3 layout |
| Writer.RecordText | rinex_writer.py:41-57 | one record as written: satellite, space, epoch, values as written, newline (`Writer.WriteRecord` computes it) |
| Writer.Rinex | rinex_writer.py:17-58 | the file name and text of `write_rinex`; no votes raise IndexError, a correction coefficient `float()` refuses raises ValueError (`Writer.WriteRinex` computes it, `Writer.WriteDate` and `Writer.ChooseDateMost` state the date) |
| Writer.ScriptWrites | script.py:12-14 | after a successful merge, the search succeeds on the merged data and the writer's requirements all hold; every accepted correction coefficient is text `float()` accepts, so the file is written exactly when there was at least one file to merge |

## Left out

- Floating point is not modelled:
  - The ratio test `|1 - b/a| < 1e-11` is the parameter `near`, and "the coefficient is 0.0" is `isZero`.
  - `widthAlignCoef(float(x))` is the parameter `align`, and whether `float(x)` accepts `x` is the parameter `isFloat`. `isFloat` stands for "`float()` accepts the value Python holds": for a coefficient of the text branch (rinex_merger.py:50) that is the text itself, so a key such as `1.0E 08` makes the merge raise ValueError; for a RINEX 3 header slice it is the number `rinex_string_to_float` reads from the slice, which `float()` always converts, although the raw slice (` 1.1176D-08`) is not text `float()` accepts.
  - `rinex_string_to_float` in `navheader3` is not applied: coefficient values stay as their text. Its definition (parselib/common) is not part of this model, so the exception it raises on a malformed 12-column slice is not modelled either: in Python that exception makes the reader fail and the merge pass over the file, where the model reads the file.
  - The ionospheric `float()` lists are kept as text.
  - The microsecond `int(float(ln[17:22]) % 1 * 1000000)` of `_timenav` is the parameter `subsec`.
- Searcher.DeleteSimilarCoefs: the `float()` calls of bad_coefs_searcher.py:4 and :9 are not a parameter, since a record value is always a token of the shape `[- ]digits.digitsE±digits` or `[- ].digitsE±digits` (`Tokens.MatchAtSound`), which `float()` accepts; they cannot raise.
- Text.TruncFloat: reads `int(float(s))` only for the plain forms `[sign]digits[.digits]` and `[sign].digits`. Exponents, `inf`, `nan` and underscores are not modelled.
- Text.ParseInt: reads `int()` for an optional sign and ASCII digits between white space. Underscores and non-ASCII digits are not modelled.
- Text.IsSpace: covers the ASCII and C1 white space that `str.strip` removes, not the rest of Unicode.
- The file-name patterns match ASCII digits only. `re.IGNORECASE` changes nothing for them.
- `rinexinfo` and `opener` (parselib/rio) are not part of this model. The version-line fields are the parameter `info`, and the line `rinexinfo` consumes is not among `lines`.
- `_tlim` (parselib/utils) is not part of this model. The time window is the parameter `tlim`.
- Reading a file is I/O, so `merge_rinexes` takes each file name with the reader's result. A failed reading (`Err`) is the `except` branch that passes over the file.
- Merger.FilesWellFormed: the merge requires well-formed reader results. `NavBase.RinexNavShapes` proves that every successful reading has them.
- `print` in `merge_rinexes` is left out.
- Opening and closing the output file are left out. The writer returns the file name and the file's text.
- `report_writer.py` and `parselib/build.py` are not part of this model. Neither is the globbing of `script.py`.
- `delete_similar_coefs` and `search_bad_coefs` update dictionaries in place, and their entries are shared. Both are modelled on values: the slot loops return new dictionaries. Aliasing between the returned entries and the input is not modelled.
- Merger.IonoFrom: tallies the ionospheric values by their text, where Python's keys are the `float` values (rinex_merger.py:67-68, and the floats the RINEX 3 header reader stores). Spellings of one number, such as ` 0.0E+00` and `-0.0E+00`, are one key in Python and two in the model, and a zero key never absorbs another. With ` 1.0E-08`, ` 0.0E+00` and `-0.0E+00` from three files, in that order, Python elects 0.0 and the model elects ` 1.0E-08`.
- Tokens.MatchAt: `\d` of the token patterns (parselib/nav3.py:70) matches ASCII digits only in the model. Python also matches other Unicode decimal digits, so a token written with them is a match in Python and not in the model.
- Merger.Label: `[A-Z]` under `re.IGNORECASE` (rinex_merger.py:47) matches ASCII letters only in the model. Python also matches the few non-ASCII letters that fold to A-Z (the dotless `ı`, the long `ſ`, the Kelvin sign). The `\d` of the ionospheric value pattern (rinex_merger.py:50) is likewise ASCII digits only. A correction string with such characters gets a different label or different values.
- Writer.EpochReads: requires a year of at least 1000. `%Y` writes smaller years without zero padding, and `_time` then misreads the columns.
- Writer.FileNameRoundTrip: requires a year in 1969..2068. The name keeps only two digits of the year, and the merger reads them back into that range (`Writer.FileNameReads` states the general case).
- "Missed coefs" is raised out of `merge_rinexes`, and the whole merge stops, not just that file's part. The model follows the code.
- `_sparefields` and `_newnav` are not called by the reader. They are modelled on their own (`Nav3.SpareFields`, `Nav3.NewNav`).

## Findings

| source | as written | input that shows it | evidently intended | confidence | as-written member | corrected member |
|---|---|---|---|---|---|---|
| rinex_writer.py:47 | `coef_idx == 2 or ...` always breaks the line after slot 2, even when slot 2 is the record's last value; the padding loop (lines 50-53) then breaks again before the first zero, or the final newline follows the break | a record of exactly three values `a`, `b`, `c` with `max_i_q` 2 is written as `abc`, a line break and four spaces, an empty continuation line | break after slot 2 only when more fields follow, giving the RINEX 3 layout of three fields on the epoch line and four on each continuation line | not executed | Writer.WrittenRecordValuesDiffer, Writer.ThreeValuesExample, Writer.WriteValues | Writer.RecordValuesLayout |
