# Cache-simulation sweep and matrix kernels, modelled in Dafny

The repository runs an instrumented cache simulator (a Pin tool) over a small C program for several
L1 data-cache configurations and collects the statistics into a CSV file. This project models the
core of that pipeline and the two C kernels it is meant to measure:

- `Invoker` holds the argument vector that `run_cache_simulator` hands to the Pin launcher and the
  text the call gives back (standard error followed by standard output, or nothing on a non-zero
  exit status). The process itself is a parameter.
- `PyText` and `LabelSearch` hold the pieces of Python that the parser relies on: `str.strip`,
  `str.split('\n')`, the argument-less `str.split()`, and leftmost-match `re.search(label + r'\s*(D+)')`
  with its first group.
- `ReportParser` holds `parse_cache_simulator_output`. The report is stripped and split into lines,
  and it needs at least six of them. Four configuration values are searched for on line 0 and four
  hit/miss values on line 3. Line 5 must split into exactly five counts. Any failure gives `None`,
  never a partial record. The parser's format comment shows a five-line report, with the hit/miss
  line third and the counts fifth. The code needs six lines and reads lines 0, 3 and 5. The model
  follows the code. `ReportParser.CommentLayoutRejected` shows that the commented layout yields
  `None`, and `ReportParser.DocumentedSampleRejected` shows it for the commented sample exactly as
  printed. The same column-aligned lines, in the order the code reads, parse to the sample's values
  (`ReportParser.ParseDocumentedSample`).
- `ResultStore` holds `write_results_to_csv`, with the file seen as an optional list of rows. The
  header is written only when the file is absent or has no rows.
- `Sweep` holds the loop in `main`. It runs every point of `itertools.product(cache_sizes,
  block_sizes, associativities)` in product order and keeps the records that parse. It then stores
  them in one call.
- `Matrices` and `SimpleKernel` hold `matrixMultSimple.c`: operands `A[i][j] = i + j` and
  `B[i][j] = i * j`, a zeroed result, and the i-j-k loop. Matrix entries are C `int`s (the newtype
  `Int32`), so every store is proved to stay in range.
- `Tiling` and `BlockedKernel` hold `matrixBlocked.c`. The four tile loops are modelled as the list
  of cells they visit. The `double` accumulator is modelled as an integer, which is exact because
  every partial sum is an integer below 2^53. The `(int)` cast back loses nothing, because every sum
  is below 2^31.

The unclamped inner tile loops of `matrixBlocked.c` run past the array bounds; see "## Findings".
The corrected kernel clamps them to `DIM`.

## Model

| member | source | states |
|---|---|---|
| Invoker.CommandVector | CacheAnalysis/cacheSimAnalyzer.py:29-38 | The vector has eleven entries in the source's order: `pin_root/pin`, `-t`, the tool path, `-dl1_c`, `-b` and `-dl1_a` each followed by a number, then `--` and `./matrixMultSimple`. |
| Invoker.CommandCarriesConfig | CacheAnalysis/cacheSimAnalyzer.py:32-34 | The entries after `-dl1_c`, `-b` and `-dl1_a` read back as the cache size, block size and associativity. |
| Invoker.CommandDeterminesConfig | CacheAnalysis/cacheSimAnalyzer.py:29-38 | Two points with the same command vector are the same point. |
| Invoker.NatString | CacheAnalysis/cacheSimAnalyzer.py:32 | `str(n)` of a natural number is a non-empty digit string with no leading zero, one digit long exactly when `n < 10`. |
| Invoker.DecimalString | CacheAnalysis/cacheSimAnalyzer.py:32-34 | `str(n)` begins with `-` exactly when `n` is negative; the rest is digits. |
| Invoker.NatStringValue | CacheAnalysis/cacheSimAnalyzer.py:32 | The digits of `str(n)` denote `n`. |
| Invoker.DecimalRoundTrip | CacheAnalysis/cacheSimAnalyzer.py:32-34 | Reading back `str(n)` gives `n`, for every integer including negative ones. |
| Invoker.DecimalInjective | CacheAnalysis/cacheSimAnalyzer.py:32-34 | Distinct integers have distinct `str` texts. |
| Invoker.RunCacheSimulator | CacheAnalysis/cacheSimAnalyzer.py:39-47 | On a zero exit status the result is standard error followed by standard output; on a non-zero status (`CalledProcessError`) it is `None`. |
| Invoker.PolicyAndPrefetcherIgnored | CacheAnalysis/cacheSimAnalyzer.py:26-38 | The replacement-policy and prefetcher arguments do not affect the call. |
| PyText.SkipBlanks | CacheAnalysis/cacheSimAnalyzer.py:75 | Returns the end of the whitespace run starting at `i`: every character skipped is whitespace, and the next is not. |
| PyText.Strip | CacheAnalysis/cacheSimAnalyzer.py:59 | `strip()` returns a slice of its input with no whitespace at either end, and only whitespace was removed around it. |
| PyText.StripUnique | CacheAnalysis/cacheSimAnalyzer.py:59 | Stripping whitespace-padded trimmed text gives back exactly that text. |
| PyText.StripTrimmed | CacheAnalysis/cacheSimAnalyzer.py:87 | `strip()` leaves already-trimmed text unchanged. |
| PyText.Split | CacheAnalysis/cacheSimAnalyzer.py:59 | `split('\n')` gives at least one part, no part contains the separator, and joining the parts with it gives back the input. |
| PyText.SplitJoin | CacheAnalysis/cacheSimAnalyzer.py:59 | Splitting a join of separator-free parts gives back the parts. |
| PyText.Words | CacheAnalysis/cacheSimAnalyzer.py:87 | Every word `split()` returns is non-empty and free of whitespace. Which words come back is fixed by the lemmas below. |
| PyText.WordsJoinWords | CacheAnalysis/cacheSimAnalyzer.py:87 | Splitting words joined by single spaces gives back the words. |
| PyText.WordsSkipSpace | CacheAnalysis/cacheSimAnalyzer.py:87 | A run of whitespace of any length in front of a text adds no word. |
| PyText.WordsAfterGap | CacheAnalysis/cacheSimAnalyzer.py:87 | A word followed by any non-empty run of whitespace splits off as the first word, and the rest splits as the text after the run. |
| PyText.WordsTrailingSpace | CacheAnalysis/cacheSimAnalyzer.py:87 | Whitespace after a text adds no word. |
| PyText.WordsOfMiddle | CacheAnalysis/cacheSimAnalyzer.py:87 | Cutting blank runs off both ends of a text leaves its words unchanged. |
| PyText.WordsOfStrip | CacheAnalysis/cacheSimAnalyzer.py:87 | `s.strip().split()` equals `s.split()`. |
| PyText.WordsSpaced | CacheAnalysis/cacheSimAnalyzer.py:87 | Words laid out with non-empty whitespace gaps between them and any trailing padding split back into the same words. |
| PyText.WordsOfSpaced | CacheAnalysis/cacheSimAnalyzer.py:87 | The same with any leading whitespace as well: the layout of a column-aligned line. |
| PyText.JoinAppend | CacheAnalysis/cacheSimAnalyzer.py:42 | Text appended to a newline join lands on the join's last part. |
| PyText.JoinWordsGlue | CacheAnalysis/cacheSimAnalyzer.py:87 | Two space-joined texts written without a gap equal one space-joined text in which the last word of the first is fused with the first word of the second. |
| PyText.WordsGlued | CacheAnalysis/cacheSimAnalyzer.py:87 | `split()` of two such texts written without a gap gives one word fewer than they hold together. |
| PyText.SkipBlanksRun | CacheAnalysis/cacheSimAnalyzer.py:75 | A whitespace run ending at a non-blank character or at the end is skipped to exactly that point (`\s*` is greedy). |
| PyText.WordsAfterWord | CacheAnalysis/cacheSimAnalyzer.py:87 | A word followed by a space splits off as the first word of the text. |
| LabelSearch.RunEnd | CacheAnalysis/cacheSimAnalyzer.py:75 | The greedy `(\d+)` / `([\d.]+)` group ends at the first character outside the class. |
| LabelSearch.Group | CacheAnalysis/cacheSimAnalyzer.py:75-84 | The group captured by a match is a non-empty run of the class. It starts where the blank run after the label ends, and it stops only at the end of the text or at a character outside the class. |
| LabelSearch.FirstMatch | CacheAnalysis/cacheSimAnalyzer.py:75 | Returns the first match position at or after `from`; no earlier position matches. |
| LabelSearch.MatchesFromMeans | CacheAnalysis/cacheSimAnalyzer.py:75 | The unrolled search succeeds exactly when some position at or after `from` starts a match. |
| LabelSearch.FoundMeans | CacheAnalysis/cacheSimAnalyzer.py:75 | A label is found exactly when some position starts a match. |
| LabelSearch.Search | CacheAnalysis/cacheSimAnalyzer.py:75-84 | `re.search(...)` succeeds exactly when a match exists, and the group it yields is a non-empty run of the class. |
| LabelSearch.SearchIsLeftmost | CacheAnalysis/cacheSimAnalyzer.py:75-84 | The value returned is the group of the leftmost match. |
| LabelSearch.SearchFinds | CacheAnalysis/cacheSimAnalyzer.py:75-84 | When the label cannot start earlier, `label + " " + value` followed by a non-class character yields `value`. |
| LabelSearch.SearchFindsAt | CacheAnalysis/cacheSimAnalyzer.py:75-84 | When the first occurrence of the label is at `p`, whitespace runs from its end to `v0` and a maximal class run from `v0` to `e`, the search yields exactly `s[v0..e]`. |
| LabelSearch.SearchFindsAfterGap | CacheAnalysis/cacheSimAnalyzer.py:75-84 | When the label cannot start earlier, `label + gap + value` followed by a non-class character yields `value`, for any whitespace `gap`, including an empty one (`\s*`). |
| LabelSearch.AbsentHeadNotFound | CacheAnalysis/cacheSimAnalyzer.py:75-84 | A line without the label's first character gives no match, so `.group(1)` fails. |
| LabelSearch.NoStartAppend | CacheAnalysis/cacheSimAnalyzer.py:75-84 | If no occurrence of the label can begin inside either of two texts, whatever follows them, none can begin inside their concatenation. |
| ReportParser.ReportLines | CacheAnalysis/cacheSimAnalyzer.py:59 | `output.strip().split('\n')` gives at least one line, and no line contains a newline. |
| ReportParser.FindFour | CacheAnalysis/cacheSimAnalyzer.py:75-84 | Four values come back exactly when all four labels match, each equal to its own search's group; otherwise the result is `None`. |
| ReportParser.ConfigValues | CacheAnalysis/cacheSimAnalyzer.py:75-78 | When the configuration line parses, its cache size, block size, associativity and set count are digit strings. |
| ReportParser.HitMissValues | CacheAnalysis/cacheSimAnalyzer.py:81-84 | When the hit/miss line parses, its four values are runs of digits and dots. |
| ReportParser.Breakdown | CacheAnalysis/cacheSimAnalyzer.py:87-88 | The breakdown succeeds exactly when the stripped line splits into five words (the five-way unpacking), and the result is those words. |
| ReportParser.BreakdownIsSplit | CacheAnalysis/cacheSimAnalyzer.py:87-88 | Stripping the line first changes nothing: the breakdown is the line's `split()`, when that has exactly five words, and `None` otherwise. |
| ReportParser.BreakdownOfSpaced | CacheAnalysis/cacheSimAnalyzer.py:86-88 | Five counts with any leading whitespace, any non-empty whitespace runs between them and any trailing padding are read back as the same five counts. |
| ReportParser.ParseReport | CacheAnalysis/cacheSimAnalyzer.py:58-97 | Fewer than six lines give `None`. Otherwise the result is a record exactly when all eight labels match and line 5 has five words, and every record has the 13-field shape. |
| ReportParser.RecordFromParts | CacheAnalysis/cacheSimAnalyzer.py:91-94 | Four configuration values, four hit/miss values and five counts concatenate into a well-formed record. |
| ReportParser.ParseSeesOnlyFixedLines | CacheAnalysis/cacheSimAnalyzer.py:67-72 | Two reports that agree on lines 0, 3 and 5 parse to the same result. |
| ReportParser.SizeLabelIsCaseSensitive | CacheAnalysis/cacheSimAnalyzer.py:75 | A configuration line without a capital `S` (`size:` in lower case, say) never parses. |
| ReportParser.FieldFound | CacheAnalysis/cacheSimAnalyzer.py:75-84 | In a line of well-separated `label value` fields, searching for any field's label yields that field's value. |
| ReportParser.FourFieldsFound | CacheAnalysis/cacheSimAnalyzer.py:75-84 | In such a line, the four searches yield the four values in order. |
| ReportParser.ConfigTextFound | CacheAnalysis/cacheSimAnalyzer.py:74-78 | A configuration line in the one-space layout (one blank between each label and its value, one after each field) gives back its four values. |
| ReportParser.HitMissTextFound | CacheAnalysis/cacheSimAnalyzer.py:80-84 | A hit/miss line in the one-space layout gives back its four values. |
| ReportParser.BreakdownLineOf | CacheAnalysis/cacheSimAnalyzer.py:86-88 | Five counts joined by spaces form one trimmed line that splits back into the same five counts. |
| ReportParser.RenderedLines | CacheAnalysis/cacheSimAnalyzer.py:59 | A rendered six-line report strips and splits back into exactly its six lines. |
| ReportParser.ParseFromParts | CacheAnalysis/cacheSimAnalyzer.py:62-94 | When the three fixed lines yield their parts, the record is their concatenation in order. |
| ReportParser.ParseRenderRoundTrip | CacheAnalysis/cacheSimAnalyzer.py:58-97 | Any well-formed record, rendered in the one-space layout with any single-line filler lines, parses back to itself. |
| ReportParser.ParseWorkedExample | CacheAnalysis/cacheSimAnalyzer.py:50-71 | The values of the format comment's sample, laid out as the six lines the code reads, parse to `[32, 64, 8, 64, 53572514, 15264597, 0.0044, 1.2592, 67456, 3170, 16022, 2057, 46207]`. The configuration line is line 0, the program's message line 1, a blank line 2, the hit/miss line 3, the header line 4 and the counts line 5. |
| ReportParser.LinesRoundTrip | CacheAnalysis/cacheSimAnalyzer.py:59 | Newline-free lines whose joined text neither starts nor ends with whitespace come back from `strip().split('\n')` unchanged. |
| ReportParser.ShortReportRejected | CacheAnalysis/cacheSimAnalyzer.py:59-64 | A report of one to five such lines gives `None`, whatever the lines hold. |
| ReportParser.CommentLayoutRejected | CacheAnalysis/cacheSimAnalyzer.py:49-64 | A report in the five-line layout of the format comment gives `None` for every record, because the code needs six lines. |
| ReportParser.SampleConfigFound | CacheAnalysis/cacheSimAnalyzer.py:50-78 | The configuration line exactly as the format comment prints it, column-aligned, gives back `[32, 64, 8, 64]`. |
| ReportParser.SampleHitMissFound | CacheAnalysis/cacheSimAnalyzer.py:52-84 | The hit/miss line exactly as the format comment prints it gives back `[53572514, 15264597, 0.0044, 1.2592]`. |
| ReportParser.SampleCountsFound | CacheAnalysis/cacheSimAnalyzer.py:54-88 | The counts line exactly as the format comment prints it splits into `[67456, 3170, 16022, 2057, 46207]`. |
| ReportParser.ParseDocumentedSample | CacheAnalysis/cacheSimAnalyzer.py:50-97 | The comment's column-aligned lines, in the six-line order the code reads, parse to the sample's 13 values. The order is: configuration line, message line, blank line, hit/miss line, header line, counts line. |
| ReportParser.DocumentedSampleRejected | CacheAnalysis/cacheSimAnalyzer.py:49-64 | The comment's five column-aligned lines, exactly as printed, give `None`. |
| ReportParser.CompletionMessageWords | CacheAnalysis/matrixMultSimple.c:27 | The program's message "Matrix multiplication complete" is the three words `Matrix`, `multiplication` and `complete` joined by spaces. |
| ReportParser.GluedBreakdownRejected | CacheAnalysis/cacheSimAnalyzer.py:86-88 | Five counts followed directly by the program's message split into seven words, so the breakdown is `None`. |
| ReportParser.GluedReportRejected | CacheAnalysis/cacheSimAnalyzer.py:40-88 | A six-line report whose last line has no newline, followed directly by the program's message, gives `None` for every record. |
| ResultStore.AppendResults | CacheAnalysis/cacheSimAnalyzer.py:99-125 | An absent or empty file ends up as the header followed by the results. Otherwise the old rows are kept as a prefix and the results follow them. The rows are those rows, the results and, when the header was written, one header. |
| ResultStore.AppendKeepsFirstRow | CacheAnalysis/cacheSimAnalyzer.py:110-125 | A non-empty file is only appended to; its first row is neither checked nor rewritten. |
| ResultStore.AbsentLikeEmpty | CacheAnalysis/cacheSimAnalyzer.py:106-118 | A missing file and an empty one are treated alike: both receive the header. |
| ResultStore.SessionsFromNothing | CacheAnalysis/cacheSimAnalyzer.py:99-125 | Any number of sessions against a fresh file give one header followed by every batch in order. |
| ResultStore.OneHeader | CacheAnalysis/cacheSimAnalyzer.py:99-125 | The header appears exactly once, at the top, when no result row equals it. |
| ResultStore.TwoRunsScenario | CacheAnalysis/cacheSimAnalyzer.py:99-125 | Two sessions against a missing file give the header, the first batch, then the second batch. |
| Sweep.Product | CacheAnalysis/cacheSimAnalyzer.py:136-137 | `itertools.product` of the three lists has one point for each choice of cache size, block size and associativity: `|cs| * (|bs| * |as|)` of them. `Sweep.ProductAt` and `Sweep.ProductMembers` give their order and membership. |
| Sweep.AssocPoints | CacheAnalysis/cacheSimAnalyzer.py:136-137 | The innermost product level holds one point per associativity, in order. |
| Sweep.ProductLength | CacheAnalysis/cacheSimAnalyzer.py:136-137 | The product has `|cache sizes| * |block sizes| * |associativities|` points. |
| Sweep.ProductAt | CacheAnalysis/cacheSimAnalyzer.py:136-137 | Point `(i * |bs| + j) * |as| + k` of the product is `(cs[i], bs[j], as[k])`, so the first list is outermost. |
| Sweep.ProductMembers | CacheAnalysis/cacheSimAnalyzer.py:136-137 | A point is in the product exactly when each coordinate is in its list. |
| Sweep.Attempt | CacheAnalysis/cacheSimAnalyzer.py:141-145 | A point yields a record exactly when the simulator succeeds, prints something and the output parses to a non-empty row; the record is the parse. |
| Sweep.MainAttempt | CacheAnalysis/cacheSimAnalyzer.py:141-145 | With the report parser, a point yields exactly what the parser makes of the simulator's output: both truthiness tests are moot. |
| Sweep.SimulatedPoint | CacheAnalysis/cacheSimAnalyzer.py:141-145 | A point of the sweep runs the point's command vector, with `None` for the policy and prefetcher. It yields nothing when the command exits non-zero or prints nothing. Otherwise it yields the parse of standard error followed by standard output. |
| Sweep.EmptyOutputNeverParses | CacheAnalysis/cacheSimAnalyzer.py:142 | The empty output, which `if output:` skips, would not parse either. |
| Sweep.Collect | CacheAnalysis/cacheSimAnalyzer.py:133-145 | There are never more results than points. |
| Sweep.CollectAppend | CacheAnalysis/cacheSimAnalyzer.py:133-145 | The records of two runs of points, in sequence, are the records of each in order. |
| Sweep.FailingPointDropped | CacheAnalysis/cacheSimAnalyzer.py:142-145 | A point that fails contributes nothing and disturbs nothing around it. |
| Sweep.SucceedingPointKept | CacheAnalysis/cacheSimAnalyzer.py:142-145 | A point that succeeds contributes its record, in place. |
| Sweep.CollectIsSubsequence | CacheAnalysis/cacheSimAnalyzer.py:133-145 | The results are the records of the successful points, each matched to a strictly increasing point index, and every successful point is among them. |
| Sweep.RunSweep | CacheAnalysis/cacheSimAnalyzer.py:133-145 | The nested loops collect exactly the records of the product points in product order. |
| Sweep.CollectedAreRecords | CacheAnalysis/cacheSimAnalyzer.py:143-145 | Every collected result is a well-formed 13-field record. |
| Sweep.SweepAndStore | CacheAnalysis/cacheSimAnalyzer.py:127-147 | The file ends up as `write_results_to_csv` of the collected records, and its last rows are well-formed records. |
| Sweep.ConfiguredSweep | CacheAnalysis/cacheSimAnalyzer.py:129-131 | The configured lists give the single point (256 KB, 64 B, direct-mapped). |
| Matrices.InitOperands | CacheAnalysis/matrixMultSimple.c:9-14 | Afterwards `A[i][j] == i + j` and `B[i][j] == i * j` for all `i, j < n`. |
| Matrices.ZeroMatrix | CacheAnalysis/matrixMultSimple.c:17 | Every cell of the result matrix starts at zero. |
| Matrices.DotOfInit | CacheAnalysis/matrixMultSimple.c:23 | On the initialised operands, the row-by-column sum is `sum (r + k) * (k * c)`. |
| Matrices.TermBound | CacheAnalysis/matrixMultSimple.c:23 | Every product `A[i][k] * B[k][j]` is non-negative and at most `2 * 99 * 99 * 99`. |
| Matrices.SumsFit | CacheAnalysis/matrixMultSimple.c:23 | Every partial sum for dimensions up to 100 lies in `[0, 2^31)`, so `+=` never overflows an `int`. |
| Matrices.InitDotMonotone | CacheAnalysis/matrixMultSimple.c:20-26 | Larger indices and longer sums never give a smaller partial sum. |
| Matrices.InitDotClosedForm | CacheAnalysis/matrixMultSimple.c:20-26 | `6 * sum_{k<len} (r + k) * k * c == c * (3 * r * len * (len - 1) + (len - 1) * len * (2 * len - 1))`. |
| SimpleKernel.AccumulateCell | CacheAnalysis/matrixMultSimple.c:22-24 | The `k` loop leaves the row-by-column sum in cell `(i, j)` and no other cell changes. |
| SimpleKernel.MultiplySimple | CacheAnalysis/matrixMultSimple.c:20-26 | After the i-j-k loops every cell holds its row-by-column sum. |
| SimpleKernel.MultiplyProgram | CacheAnalysis/matrixMultSimple.c:3-26 | With `SIZE == 64` every cell equals the closed-form sum; the largest, at `(63, 63)`, is 13,378,176. |
| SimpleKernel.PartialSumsBounded | CacheAnalysis/matrixMultSimple.c:23 | No partial sum of the program is negative or exceeds 13,378,176. |
| Tiling.Visits | CacheAnalysis/matrixBlocked.c:24-28 | The four tile loops visit nothing when `DIM <= 0`, and otherwise start at cell (0, 0). Which cells they reach, and how often, is stated by `Tiling.VisitsExactlyOnce` and `Tiling.CoversMatrixOnce`. |
| Tiling.FirstVisit | CacheAnalysis/matrixBlocked.c:24-28 | From row tile 0, the loops run at all exactly when `DIM > 0`, and their first iteration is `row == col == blockRow == blockCol == 0`. |
| Tiling.SegmentCovers | CacheAnalysis/matrixBlocked.c:28 | The `blockCol` loop visits each column of `[lo, hi)` in its row, once. |
| Tiling.TileCovers | CacheAnalysis/matrixBlocked.c:27-28 | The two inner loops visit each cell of the tile once. |
| Tiling.VisitsFromCovers | CacheAnalysis/matrixBlocked.c:24-28 | The loops from tile row `from` on visit exactly the cells of the square they reach, each once. |
| Tiling.VisitsExactlyOnce | CacheAnalysis/matrixBlocked.c:24-28 | Each cell of the reached square is visited exactly once, and no other cell is. |
| Tiling.AsWrittenEnd | CacheAnalysis/matrixBlocked.c:24-28 | Without the clamp, the loops stop exactly at `DIM` only when `BLOCK_SIZE` divides `DIM`; otherwise they go past it. |
| Tiling.AsWrittenInBounds | CacheAnalysis/matrixBlocked.c:24-28 | Without the clamp, every visited index is inside the arrays exactly when `BLOCK_SIZE` divides `DIM`. |
| Tiling.AsWrittenOverrun | CacheAnalysis/matrixBlocked.c:4-5 | With `DIM == 100` and `BLOCK_SIZE == 40`, the unclamped loops reach rows and columns up to 119. |
| Tiling.CoversMatrixOnce | CacheAnalysis/matrixBlocked.c:24-28 | When clamped, or when `BLOCK_SIZE` divides `DIM`, every cell of the matrix is visited exactly once and nothing outside it is. |
| Tiling.ExtentWithin | CacheAnalysis/matrixBlocked.c:27-28 | Under the same condition a tile ends at `min(start + BLOCK_SIZE, DIM)`. |
| Tiling.LastCellVisited | CacheAnalysis/matrixBlocked.c:24-28 | The far corner of the reached square is visited. |
| BlockedKernel.DotProduct | CacheAnalysis/matrixBlocked.c:29-35 | The `dot` loop yields the row-by-column sum. Every partial sum is a non-negative integer below 2^53, so the `double` is exact, and the total fits the `int` cast. |
| BlockedKernel.FillSegment | CacheAnalysis/matrixBlocked.c:28-36 | The `blockCol` loop fills its row segment with the sums, visits exactly that segment and leaves every other cell alone. |
| BlockedKernel.FillTile | CacheAnalysis/matrixBlocked.c:27-37 | The `blockRow` loop fills its tile and leaves every other cell alone. |
| BlockedKernel.FillBand | CacheAnalysis/matrixBlocked.c:25-38 | The `col` loop fills the band of rows and leaves every other row alone. |
| BlockedKernel.TiledMultiply | CacheAnalysis/matrixBlocked.c:24-39 | The four tile loops leave every cell holding its row-by-column sum and visit the cells in `Visits` order. |
| BlockedKernel.RunClamped | CacheAnalysis/matrixBlocked.c:15-39 | Initialising, then multiplying with clamped tiles, gives the closed-form sum in every cell and visits each cell exactly once. |
| BlockedKernel.BlockedProgram | CacheAnalysis/matrixBlocked.c:4-39 | The same for `DIM == 100` and `BLOCK_SIZE == 40`. |
| BlockedKernel.TiledMatchesUntiled | CacheAnalysis/matrixBlocked.c:24-35 | The tiled kernel and the straightforward i-j-k kernel produce the same matrix. |

## Left out

- Process execution is a parameter. This covers `subprocess.run`, the captured streams, and any exception other than a non-zero exit status. A missing Pin executable raises `FileNotFoundError`, which the source does not catch; it is not modelled.
- The hard-coded Pin paths at `cacheSimAnalyzer.py:27-28` are parameters (`pinRoot`, `pinTool`).
- The progress and error messages that `main`, `run_cache_simulator` and the parser print are left out. They go to the console and have no effect on the results.
- The `printf` calls of the C programs (`matrixMultSimple.c:27`, `matrixBlocked.c:41`) are not part of the kernels' models. Their text still reaches the parser. Pin runs the program and captures its standard output, and `RunCacheSimulator` appends that output after standard error, so the text is part of `exec`'s `stdout`. The message at `matrixMultSimple.c:27` ends without a newline. `ReportParser.GluedReportRejected` shows what happens when the tool's report also lacks a final newline: the message joins the counts line and the point is lost. Whether the tool ends its report with a newline depends on the Pin tool, which is not part of this model.
- The CSV encoding (quoting, delimiters, `newline=''`) is left out. The file is a list of rows, and `csv.reader`'s reading of an existing file is assumed to give back the rows written to it.
- `os.path.exists` and the file system are modelled as the file's state: `None` for absent, otherwise its rows. Concurrent writers are out of scope.
- cacheSimDataAnalyzer.py and the unused imports are not part of this model.
- LabelSearch.Search: `\d` is modelled as the ASCII digits only. Python's `\d` on `str` also matches other Unicode decimal digits.
- ReportParser.ParseRenderRoundTrip: the round trip is stated only for the one-space layout, not for every column alignment the simulator might print. The column-aligned sample of the format comment is covered line by line by `ReportParser.SampleConfigFound`, `ReportParser.SampleHitMissFound` and `ReportParser.SampleCountsFound`, and as a whole by `ReportParser.ParseDocumentedSample`. The parts hold for any whitespace. `LabelSearch.SearchFindsAfterGap` covers any run between a label and its value, including none. `ReportParser.BreakdownOfSpaced` covers any runs around and between the counts.
- ReportParser.ConfigTextFound: stated for the one-space layout only. The column-aligned documented line is `ReportParser.SampleConfigFound`.
- ReportParser.HitMissTextFound: stated for the one-space layout only. The column-aligned documented line is `ReportParser.SampleHitMissFound`.
- BlockedKernel.DotProduct: the `double` accumulator is modelled as an exact integer. IEEE arithmetic is left out, which is justified by the proved bound of 2^53 on every partial sum.
- SimpleKernel.MultiplySimple and BlockedKernel.TiledMultiply require operands holding the initialised patterns, with `n <= 100`. For other operands C's `int` arithmetic could overflow, and the model does not define that undefined behaviour.
- BlockedKernel.TiledMultiply requires the inner loops clamped or `BLOCK_SIZE` dividing `DIM`. Without either, the source indexes outside its arrays, which C leaves undefined (see "## Findings").
- Invoker.RunCacheSimulator: the replacement-policy and prefetcher parameters are accepted and ignored, as in the source. No command-line option for them is invented.

## Findings

| source | as written | input that shows it | evidently intended | confidence | as-written member | corrected member |
|---|---|---|---|---|---|---|
| CacheAnalysis/matrixBlocked.c:27-28 | The inner tile loops run to `row + BLOCK_SIZE` and `col + BLOCK_SIZE` without bounding them by `DIM`. | `DIM = 100`, `BLOCK_SIZE = 40`: the last tiles start at 80 and run to index 119, past the end of the 100-entry arrays. | Bound both inner loops by `min(row + BLOCK_SIZE, DIM)` and `min(col + BLOCK_SIZE, DIM)`. | not executed | Tiling.AsWrittenOverrun | BlockedKernel.RunClamped |
