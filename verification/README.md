# Premarket-gainer bot: a Dafny model of its ranking pipeline

The bot ranks the stocks of the S&P 500 by their premarket change, posts the
table to Discord channels every trading morning at 08:45 US/Eastern, and keeps
its list of channels in a text registry. This project models the deterministic
heart of that bot and proves what it does:

- **Quote acquisition** (`download_data`, in the 4-tuple helper copy and the
  6-tuple root copy). The market-data provider is an oracle (`Quotes.Provider`)
  that answers each normalised ticker with an error or optional prices. Around
  it, the model states ticker normalisation, the failure tuple, the change
  `last / prev - 1`, and that the weekly fallback never runs.
- **Chunked batch runner** (`chunked`, `_process_chunk`, `getGainers_mt`, both
  copies). Partitioning is a pure function. `_process_chunk` is a loop with one
  row per ticker. The thread pool's merge is the chunk outputs in a completion
  order, given as a parameter that may be any permutation of the chunk indices.
- **Rankers.** The multithreaded filter keeps rows whose change and cap are
  present and whose cap is strictly above the floor. The sequential
  `getGainers` uses Python truthiness instead. Both sort stably, descending by
  change (`Ranking.SortDesc`, an insertion sort).
- **Top/bottom selection** of the `top5` command: `head(5)`, `tail(5)`,
  concatenation and `drop_duplicates`.
- **String helpers**: `normalize_ticker` / `_normalize_symbol`,
  `truncate_text`, `clean_name` (its regular expression as a backtracking
  matcher), and the suffix tiers of the number formatters.
- **Channel registry**. A `Registry` class holds the lines of `channels.txt`.
  `setchannel` appends to it in append mode and `removechannel` filters it.
- **Alert loop**: the next-08:45 rule, the trading-day gate (an oracle), the
  end of the loop at the first alert that raises, and the parse-and-skip
  fan-out of `send_alert`, which also stops at the first send that raises.

Conventions:
- Prices, caps and volumes are `real`. `None` is `Option.None`. A Python
  exception that the model follows is `Result.Raised`.
- A Python tuple is `Quotes.PyTuple`, whose arity decides whether a
  destructuring assignment succeeds.
- Instants are integer microseconds on the Eastern wall clock, with days of
  fixed length.

Modules, one per source file:
- `HelperFilterGainers`, `HelperGainerMt` and `Utility` model
  `commands/helpers/`.
- `RootFilterGainers` and `RootGainerMt` model the root-level copies.
- `MarketCommands`, `PlottingHelper`, `BasicCommands` and `AlertLoop` model the
  cogs and the plotting helper.
- `Text`, `Quotes`, `Ranking`, `Chunking` and `Wrappers` hold what those
  modules share.

## Model

| member | source | states |
|---|---|---|
| Utility.NormalizeTicker | commands/helpers/utility.py:45-46 | the normalised ticker contains no `.`, no lower-case ASCII letter and no outer whitespace, and is no longer than the input |
| Utility.NormalizeTickerChars | commands/helpers/utility.py:45-46 | the normalised ticker is a slice of the input with only whitespace around it, each of its characters being the input's character with `.` made `-` and ASCII letters upper-cased |
| Utility.NormalizeIdempotent | commands/helpers/utility.py:46 | normalising twice gives the same ticker as normalising once |
| Utility.Tiered | commands/helpers/utility.py:37-41 | the printed mantissa times the suffix's scale is the value; with a suffix the mantissa is at least 1; below T it is under 1000 |
| Utility.TierDetermined | commands/helpers/utility.py:37-41 | those three conditions single out one tier, so the thresholds 1e12/1e9/1e6/1e3 are the only consistent choice |
| Utility.FormatLargeNum | commands/helpers/utility.py:34-43 | the placeholder appears exactly when `float(v)` fails; otherwise a scaled cell whose value is `v` |
| Utility.FormatPercentage | commands/helpers/utility.py:30-32 | the placeholder appears exactly when `float(v)` fails; otherwise the value times 100 |
| Text.Upper | commands/helpers/utility.py:46 | same length; every character upper-cased, other characters unchanged |
| Text.ReplaceChar | commands/helpers/utility.py:46 | same length; each `.` becomes `-`, every other character is kept |
| Text.LStrip | commands/helpers/utility.py:46 | the result is a suffix of the input; what was removed is all whitespace; the result does not start with whitespace |
| Text.RStrip | commands/helpers/utility.py:46 | the result is a prefix of the input; what was removed is all whitespace; the result does not end with whitespace |
| Text.Strip | commands/helpers/utility.py:46 | no outer whitespace, no longer than the input, and only characters of the input |
| Text.StripIsInfix | commands/helpers/utility.py:46 | `strip` removes only outer whitespace: the result is the slice of the input between a whitespace prefix and a whitespace suffix |
| Text.StripNoOp | commands/helpers/utility.py:46 | stripping a string without outer whitespace changes nothing |
| Text.StripTrailing | commands/basic_commands.py:32 | a registry line stripped of its trailing newline (or any trailing whitespace) is its key |
| Text.NatToString | commands/basic_commands.py:20 | the decimal rendering of an id is non-empty and all digits |
| Text.DigitsRoundTrip | commands/alert_loop.py:66 | reading the digits of a rendered id gives the id back |
| Text.ParseInt | commands/alert_loop.py:66 | `int` succeeds exactly when the stripped text is an optional sign followed by at least one ASCII digit |
| Text.ParseIntRoundTrip | commands/alert_loop.py:66 | `int(str(n)) == n` for every id |
| Text.ParseIntNegative | commands/alert_loop.py:66 | `int("-" + str(n)) == -n` for every n |
| Text.ParseIntValue | commands/alert_loop.py:66 | for every accepted text, `int` gives the digits after the optional sign read in base ten, negated after `-` and unchanged after `+` |
| Text.LeadingZero | commands/alert_loop.py:66 | a leading zero does not change the value of a digit run, so `int("007") == 7` |
| Quotes.Unpack4 | commands/helpers/gainer_multiThread.py:17 | a four-name unpacking succeeds exactly on a 4-tuple, and then its names are the tuple's elements in order |
| Quotes.FailureRow | commands/helpers/gainer_multiThread.py:22 | the row a failed ticker leaves keeps the raw ticker and has no change, cap or volume |
| Quotes.Attempt4 | commands/helpers/gainer_multiThread.py:15-22 | on a 4-tuple the row is the unpacked tuple; otherwise it is `(t, None, None, None)` with the raw ticker |
| Quotes.Unpack6 | filter_gainers.py:97 | a six-name unpacking succeeds exactly on a 6-tuple, and then its names are the tuple's elements in order |
| Quotes.PctChange | commands/helpers/filter_gainers.py:43 | the change `p` satisfies `(p + 1) * prev == last` |
| Ranking.SortDescCorrect | commands/helpers/filter_gainers.py:73 | the sort is a permutation (same multiset, same length) and is non-increasing by change |
| Ranking.SortDescSameElements | commands/helpers/filter_gainers.py:73 | a row is in the sorted table exactly when it is in the input |
| Ranking.SortDescStable | commands/helpers/gainer_multiThread.py:56 | rows with equal change keep their input order (stability) |
| Ranking.SortDesc | commands/helpers/gainer_multiThread.py:56 | the stable descending sort by change (also `sorted(..., reverse=True)` at commands/helpers/filter_gainers.py:73) keeps one row for each input row; SortDescCorrect, SortDescSameElements and SortDescStable state the order and the permutation |
| Ranking.InsertPermutes | commands/helpers/gainer_multiThread.py:56 | one insertion step adds exactly the inserted row |
| Ranking.InsertSorted | commands/helpers/gainer_multiThread.py:56 | an insertion step keeps a descending table descending |
| Ranking.InsertWithKey | commands/helpers/gainer_multiThread.py:56 | an insertion step places the new row before the rows of equal change, so the order among equal keys follows the input |
| Ranking.Present | commands/helpers/gainer_multiThread.py:46-50 | the filter never adds rows |
| Ranking.PresentExactly | commands/helpers/gainer_multiThread.py:46-50 | a kept row came from the input and has cap above the floor; every input row with change and cap present and cap above the floor is kept |
| Ranking.Truthful | commands/helpers/filter_gainers.py:70 | the truthiness filter never adds rows |
| Ranking.TruthfulExactly | commands/helpers/filter_gainers.py:70 | a kept row has nonzero change, nonzero cap above the floor and came from the input; every truthy input row above the floor is kept |
| Ranking.PresentAppend | commands/helpers/gainer_multiThread.py:46-50 | filtering distributes over concatenation |
| Ranking.PresentPermutation | commands/helpers/gainer_multiThread.py:42-50 | reordering the merged rows does not change the multiset of kept rows |
| Ranking.ZeroChangeKept | commands/helpers/gainer_multiThread.py:49 | a row whose change is exactly 0 and whose cap is above the floor is kept |
| Ranking.ZeroChangeDropped | commands/helpers/filter_gainers.py:70 | under truthiness a row whose change is exactly 0 is dropped, whatever its cap |
| Ranking.FloorIsStrict | commands/helpers/gainer_multiThread.py:49 | a row whose cap equals the floor is dropped by both filters |
| Ranking.FailureRowDropped | commands/helpers/gainer_multiThread.py:22-49 | a failure row `(t, None, None, None)` adds nothing to the table wherever it lands in `all_rows`, and the truthiness filter drops it too |
| Chunking.Clamp | commands/helpers/gainer_multiThread.py:8 | `max(1, n)` is at least 1 and at least `n`; it is `n` when `n >= 1` and 1 otherwise |
| Chunking.CeilDiv | commands/helpers/gainer_multiThread.py:9 | `ceil(len / n)`: the least size whose `n` chunks cover `len`; zero exactly when `len` is zero |
| Chunking.ChunkSize | commands/helpers/gainer_multiThread.py:8-9 | the chunk size covers the list in `max(1, n)` chunks and is the least such positive size |
| Chunking.Chunked | commands/helpers/gainer_multiThread.py:7-10 | `chunked` raises (zero range step) exactly on an empty list; otherwise it is the split at the chunk size |
| Chunking.Split | commands/helpers/gainer_multiThread.py:10 | the slicing comprehension never makes more chunks than there are tickers; SplitFlatten, SplitShape and SplitCount pin the chunks themselves |
| Chunking.SplitFlatten | commands/helpers/gainer_multiThread.py:10 | concatenating the slices gives the list back |
| Chunking.SplitShape | commands/helpers/gainer_multiThread.py:10 | every slice is non-empty and at most the size; every slice but the last is exactly the size |
| Chunking.SplitCount | commands/helpers/gainer_multiThread.py:10 | the number of slices is the least that covers the list |
| Chunking.ChunkedFacts | commands/helpers/gainer_multiThread.py:7-10 | for a non-empty list: chunks concatenate to it, are non-empty, all but the last have size `ceil(len/n)`, and there are between 1 and `max(1, n)` of them |
| Chunking.MergePermutes | commands/helpers/gainer_multiThread.py:42-43 | two completion orders that are permutations of each other merge to permutations of each other |
| Chunking.MergeSchedule | commands/helpers/gainer_multiThread.py:41-43 | in any completion order, `all_rows` is a permutation of the chunk outputs concatenated in submission order |
| Chunking.Merge | commands/helpers/gainer_multiThread.py:42-43 | `all_rows` after `extend` in completion order; it has no contract of its own: MergePermutes and MergeSchedule state that every completion order gives a permutation of the outputs in submission order |
| Chunking.MergeInOrder | commands/helpers/gainer_multiThread.py:42-43 | the `as_completed` loop builds exactly the merge of the outputs in the completion order |
| HelperFilterGainers.Failure4 | commands/helpers/filter_gainers.py:47 | the failure tuple is the ticker and three `None`s |
| HelperFilterGainers.FailureTupleUnpacks | commands/helpers/filter_gainers.py:47 | the failure tuple of `download_data` unpacks to the same row the `except` of commands/helpers/gainer_multiThread.py:22 appends |
| HelperFilterGainers.FromReply | commands/helpers/filter_gainers.py:31-47 | the change is present exactly when the provider answered with both prices (and a nonzero close); then it is `last/prev - 1` and cap and volume pass through unchanged; otherwise the result is the failure tuple |
| HelperFilterGainers.FallbackUnreachable | commands/helpers/filter_gainers.py:36-41 | the weekly-price fallback never affects the result |
| HelperFilterGainers.DownloadData | commands/helpers/filter_gainers.py:20-47 | never raises, always a 4-tuple, and carries the normalised ticker in both success and failure |
| HelperFilterGainers.FetchRow | commands/helpers/filter_gainers.py:67-70 | the row is the tuple `download_data` returned, unpacked |
| HelperFilterGainers.FetchRows | commands/helpers/filter_gainers.py:67-68 | one row per ticker, in input order, each from one `download_data` call |
| HelperFilterGainers.Downloads | commands/helpers/filter_gainers.py:67-68 | the loop appends one 4-tuple per ticker |
| HelperFilterGainers.Unpack4All | commands/helpers/filter_gainers.py:70 | one row per tuple |
| HelperFilterGainers.DownloadsUnpacked | commands/helpers/filter_gainers.py:67-70 | the rows unpacked after the loop are each ticker's fetched row, in order |
| HelperFilterGainers.RankTruthfulFacts | commands/helpers/filter_gainers.py:70-73 | the ranking is sorted, a permutation of the truthy rows, all with cap above the floor and nonzero change, and no longer than the input |
| HelperFilterGainers.GetGainers | commands/helpers/filter_gainers.py:54-79 | the loop fetches each ticker once in order; the table is the stable descending sort of the truthy rows, a permutation of them, no longer than the ticker list |
| HelperGainerMt.NormalizeTwiceHarmless | commands/helpers/gainer_multiThread.py:17 | normalising before `download_data`, which normalises again, changes nothing |
| HelperGainerMt.ChunkRowIsFetchRow | commands/helpers/gainer_multiThread.py:15-22 | the row `_process_chunk` records for a ticker is the row the sequential path fetches |
| HelperGainerMt.ProcessChunk | commands/helpers/gainer_multiThread.py:12-25 | exactly one row per ticker, in chunk order, each carrying the normalised ticker |
| HelperGainerMt.ChunkOutputs | commands/helpers/gainer_multiThread.py:41 | one output per submitted chunk |
| HelperGainerMt.RunChunks | commands/helpers/gainer_multiThread.py:41 | the submitted chunks yield, in submission order, exactly the sequential rows of each chunk |
| HelperGainerMt.ChunkOutputsFlatten | commands/helpers/gainer_multiThread.py:37-43 | the chunk outputs concatenated are the rows of the whole ticker list in order |
| HelperGainerMt.AllRows | commands/helpers/gainer_multiThread.py:37-43 | `all_rows` holds one row for each ticker, whatever order the chunks complete in |
| HelperGainerMt.AllRowsPermutation | commands/helpers/gainer_multiThread.py:37-43 | `all_rows` is a permutation of the per-ticker rows and has one row per ticker, whatever the completion order |
| HelperGainerMt.RankPresentFacts | commands/helpers/gainer_multiThread.py:46-56 | ranking the merged rows gives a sorted permutation of the kept rows, no longer than the input |
| HelperGainerMt.GetGainersMt | commands/helpers/gainer_multiThread.py:27-66 | empty input gives an empty table; it raises exactly for a non-empty list with fewer than one worker; otherwise the table is sorted descending, independent of completion order as a multiset, equal to the kept rows, and no longer than the ticker list |
| HelperGainerMt.RankingMembers | commands/helpers/gainer_multiThread.py:46-50 | every ticker whose row is present and above the floor appears in the table, and every table row is some ticker's fetched row above the floor |
| RootFilterGainers.FormatMarketCap | filter_gainers.py:7-26 | raises exactly on `None`; otherwise the same suffix tier and mantissa as the helper formatter |
| RootFilterGainers.Failure6 | filter_gainers.py:74 | the failure tuple is the ticker and five `None`s |
| RootFilterGainers.FromReply6 | filter_gainers.py:58-74 | the change is present exactly when both prices are (and the close is nonzero); then the close, last price, cap and volume pass through; otherwise the failure tuple |
| RootFilterGainers.FallbackUnreachable6 | filter_gainers.py:63-68 | the weekly-price fallback never affects the result |
| RootFilterGainers.DownloadData6 | filter_gainers.py:47-74 | never raises, always a 6-tuple, carrying the normalised ticker |
| RootFilterGainers.FetchRow6 | filter_gainers.py:94-97 | the row is the 6-tuple, unpacked |
| RootFilterGainers.Downloads6 | filter_gainers.py:94-95 | one 6-tuple per ticker |
| RootFilterGainers.Unpack6All | filter_gainers.py:97 | one row per tuple |
| RootFilterGainers.FetchRows6 | filter_gainers.py:94-97 | one row per ticker |
| RootFilterGainers.FetchRows6At | filter_gainers.py:94-95 | row `i` is the fetch of ticker `i`: each ticker fetched once, in order |
| RootFilterGainers.ChangeImpliesPrices | filter_gainers.py:63-71 | a row with a change also has both prices and a nonzero close |
| RootFilterGainers.Truthful6 | filter_gainers.py:97 | the filter never adds rows |
| RootFilterGainers.Truthful6Exactly | filter_gainers.py:97 | kept rows have nonzero change and cap above the floor and came from the input; every truthy row above the floor is kept |
| RootFilterGainers.KeptRowsHavePrices | filter_gainers.py:97-101 | every kept row has a close and a last price, so formatting them never raises |
| RootFilterGainers.Ranked6 | filter_gainers.py:97-100 | the filtered and sorted rows: no more lines than fetched rows, and every line has a non-zero change and a capitalisation above the floor |
| RootFilterGainers.Ranked6Facts | filter_gainers.py:100 | the ranking is sorted descending, a permutation of the kept rows, with the same members |
| RootFilterGainers.FormatRow6 | filter_gainers.py:101 | formatting a row raises exactly when its volume, close or last price is missing; otherwise the ticker and change pass through |
| RootFilterGainers.FormatTable6 | filter_gainers.py:101 | formatting the table raises exactly when some row's formatting raises; otherwise one display row per row |
| RootFilterGainers.GetGainers6 | filter_gainers.py:81-106 | the result is the formatted ranking; it raises exactly when a kept row has no volume; otherwise it has one row per kept row |
| RootFilterGainers.FormatReorderedRaises | filter_gainers.py:100-101 | formatting any reordering of rows that carry both prices raises exactly when one of them has no volume, and otherwise gives one display row per row |
| RootFilterGainers.RaisesIffVolumeMissing | filter_gainers.py:97-101 | on fetched rows, formatting raises exactly when a kept row lacks its volume |
| RootGainerMt.UnpackAlwaysFails | gainer_multiThread.py:15-22 | unpacking the imported 6-tuple into four names always fails, so every row is `(t, None, None, None)` |
| RootGainerMt.ProcessChunk6 | gainer_multiThread.py:12-25 | every row of a chunk is the failure row of its raw ticker |
| RootGainerMt.RunChunks6 | gainer_multiThread.py:41 | every chunk output has one row per ticker of its chunk, each the failure row of that ticker |
| RootGainerMt.MergeOfFailures | gainer_multiThread.py:42-43 | merging outputs made only of failure rows, in any completion order, gives only rows without a change |
| RootGainerMt.PresentOfFailures | gainer_multiThread.py:46-50 | rows without a change are all filtered out |
| RootGainerMt.GetGainersMt6 | gainer_multiThread.py:27-56 | raises exactly for a non-empty list with fewer than one worker; otherwise the table is always empty |
| MarketCommands.Head | commands/market_commands.py:40 | the first `min(5, n)` rows |
| MarketCommands.Tail | commands/market_commands.py:41 | the last `min(5, n)` rows |
| MarketCommands.DropDuplicates | commands/market_commands.py:44 | no duplicates, the same set of rows as the input, no longer |
| MarketCommands.DropDuplicatesOfDistinct | commands/market_commands.py:44 | a table without duplicates is unchanged |
| MarketCommands.DropRepeated | commands/market_commands.py:44 | later occurrences of rows already seen are dropped |
| MarketCommands.DropRepeatedMiddle | commands/market_commands.py:44 | rows already seen are dropped even when later rows follow them |
| MarketCommands.TopBottom | commands/market_commands.py:40-44 | at most 10 rows, no duplicates, all from the table; an empty table gives an empty result |
| MarketCommands.TopBottomSmall | commands/market_commands.py:40-44 | for at most 10 distinct rows the whole table comes back in order |
| MarketCommands.TopBottomLarge | commands/market_commands.py:40-44 | for at least 10 distinct rows the result is the first 5 followed by the last 5 |
| PlottingHelper.SliceEnd | commands/helpers/plotting_helper.py:13 | Python's slice end: a non-negative bound clipped to the length, a negative one counted from the end |
| PlottingHelper.TruncateText | commands/helpers/plotting_helper.py:9-14 | text within the limit is unchanged; longer text is a prefix plus `...` |
| PlottingHelper.TruncateBounds | commands/helpers/plotting_helper.py:12-13 | for a limit of at least 3 the result never exceeds it; truncated text is exactly the limit long, its first `limit - 3` characters followed by `...` |
| PlottingHelper.TruncateIdempotent | commands/helpers/plotting_helper.py:9-14 | truncating twice equals truncating once |
| PlottingHelper.TruncateShortLimit | commands/helpers/plotting_helper.py:13 | below a limit of 3 the result can be longer than the limit (`"abcd"`, 2 gives `"abc..."`) |
| PlottingHelper.SpaceRunEnd | commands/helpers/plotting_helper.py:60 | `\s*` consumes a maximal run of whitespace |
| PlottingHelper.OptDot | commands/helpers/plotting_helper.py:60 | `\.?` consumes at most the characters available |
| PlottingHelper.WordWithDot | commands/helpers/plotting_helper.py:60 | a match of `Inc\.?` or `Corp\.?` covers at least the word |
| PlottingHelper.PlainWord | commands/helpers/plotting_helper.py:60 | a match of `Incorporated` or `Corporation` covers at least the word |
| PlottingHelper.Suffix | commands/helpers/plotting_helper.py:60 | a matched company suffix is at least three characters long |
| PlottingHelper.MatchAt | commands/helpers/plotting_helper.py:60 | a match of the whole pattern is non-empty and inside the name |
| PlottingHelper.RemoveSuffixes | commands/helpers/plotting_helper.py:60 | the substitution never lengthens the name |
| PlottingHelper.CleanName | commands/helpers/plotting_helper.py:57-61 | `None` or the empty name gives `N/A`; every result has no outer whitespace |
| PlottingHelper.NoTokenNoMatch | commands/helpers/plotting_helper.py:60 | the pattern cannot match where no `inc` or `corp` follows (case-insensitively) |
| PlottingHelper.NoTokenKept | commands/helpers/plotting_helper.py:60 | without such a token, the substitution keeps the name |
| PlottingHelper.CleanNameWithoutToken | commands/helpers/plotting_helper.py:60-61 | a name without those tokens is only stripped |
| PlottingHelper.CleanZinc | commands/helpers/plotting_helper.py:60-61 | with no leading word boundary, `"Zinc"` becomes `"Z"` |
| PlottingHelper.IncDotAtEnd | commands/helpers/plotting_helper.py:60 | a name ending in `inc.` has no word boundary after the dot, so `Inc\.?` takes the dot |
| PlottingHelper.CleanNameOf | commands/helpers/plotting_helper.py:60-61 | when the substitution leaves a string without outer whitespace, that string is the clean name |
| BasicCommands.ChannelLine | commands/basic_commands.py:20 | the key `"g,c"` is non-empty and has no outer whitespace |
| BasicCommands.Appended | commands/basic_commands.py:19-20 | append mode adds one line after a terminated last line and none after an unterminated one |
| BasicCommands.AppendedContents | commands/basic_commands.py:19-20 | appending writes the record at the very end of the file's text |
| BasicCommands.AppendedTerminated | commands/basic_commands.py:19-20 | on an all-terminated file the record becomes one more line and no line changes |
| BasicCommands.Filter | commands/basic_commands.py:31-33 | the loop writes back no more lines than it read |
| BasicCommands.Registry.constructor | commands/basic_commands.py:27-29 | the registry holds the lines read from the file, every one but the last terminated |
| BasicCommands.Registry.SetChannel | commands/basic_commands.py:17-21 | the record `"g,c\n"` is written in append mode: a new line after a terminated last line, joined onto an unterminated one; afterwards every line is terminated |
| BasicCommands.Registry.RemoveChannel | commands/basic_commands.py:25-34 | the new lines are the old ones without those whose stripped text is the key; the registry stays the lines of a file, and an all-terminated one stays all-terminated; an unmatched last line without a newline is kept as it is |
| BasicCommands.FilterSubset | commands/basic_commands.py:31-33 | every line written back was read and passes the test |
| BasicCommands.FilterCounts | commands/basic_commands.py:31-33 | failing lines all disappear; passing lines keep their multiplicity |
| BasicCommands.FilterAppend | commands/basic_commands.py:31-33 | the filter distributes over concatenation, so order is kept |
| BasicCommands.FilterAll | commands/basic_commands.py:31-33 | when every line passes, nothing changes |
| BasicCommands.FilterFileLines | commands/basic_commands.py:28-33 | writing back a selection of a file's lines leaves at most the last one unterminated |
| BasicCommands.WithoutSpec | commands/basic_commands.py:31-33 | removal drops every matching line (all duplicates), keeps every other line with its multiplicity, and keeps order |
| BasicCommands.WithoutNoMatch | commands/basic_commands.py:28-33 | with no matching line the registry is unchanged |
| BasicCommands.RemoveAfterSet | commands/basic_commands.py:19-33 | on an all-terminated registry, `remove(add(R, p), p) == remove(R, p)` |
| BasicCommands.SetTwiceRemoveOnce | commands/basic_commands.py:19-33 | on an all-terminated registry, registering twice leaves two identical lines, and one removal drops both |
| AlertLoop.NextTarget | commands/alert_loop.py:34-38 | the target is at 08:45, strictly after now and at most a day later; it is today if now is before 08:45 and tomorrow otherwise (also exactly at 08:45) |
| AlertLoop.NoEarlierTarget | commands/alert_loop.py:34-38 | no 08:45 lies between now and the target |
| AlertLoop.ConsecutiveTargets | commands/alert_loop.py:33-44 | waking at the target (less than a day late), the next target is exactly one day on |
| AlertLoop.EarlyWake | commands/alert_loop.py:33-44 | waking before the target, less than a day before it, the loop reads the same target again and alerts once more that day |
| AlertLoop.WaitTime | commands/alert_loop.py:34-41 | the wait is the time left until the next 08:45, strictly positive and at most a day |
| AlertLoop.RoundsRun | commands/alert_loop.py:32-49 | no more rounds run than there are readings, and at least one when there is one |
| AlertLoop.RoundsRunExactly | commands/alert_loop.py:32-49 | the rounds that run are those before the first trading day whose alert raises, and that day itself |
| AlertLoop.Rounds | commands/alert_loop.py:32-51 | each round that runs waits until the next 08:45 and calls `send_alert` exactly on trading days; the rounds end with the first such call that raises, and the loop has crashed exactly when some trading day's call raises |
| AlertLoop.ResilientRounds | commands/alert_loop.py:32-51 | with a failed alert logged instead of propagated, every round runs, every trading day gets its call, and the failed rounds are exactly the trading days whose call raises |
| AlertLoop.SplitComma | commands/alert_loop.py:66 | `split(",")` gives at least one piece |
| AlertLoop.ParseChannelLine | commands/alert_loop.py:66 | a line parses only if its stripped text has exactly two comma-separated pieces |
| AlertLoop.SplitNoComma | commands/alert_loop.py:66 | text without a comma splits into itself alone, so such a line cannot unpack into two ids |
| AlertLoop.SplitOneComma | commands/alert_loop.py:66 | text with one comma splits into the parts before and after it |
| AlertLoop.ChannelLineRoundTrip | commands/alert_loop.py:66 | every line `setchannel` writes parses back to its guild and channel |
| AlertLoop.BlankLineFails | commands/alert_loop.py:66 | a blank line fails the parse |
| AlertLoop.Entries | commands/alert_loop.py:65-66 | one parse per registry line, in order |
| AlertLoop.EntriesAppend | commands/alert_loop.py:65-66 | parsing two blocks of registry lines one after the other gives the parses of the joined registry |
| AlertLoop.Deliver | commands/alert_loop.py:64-74 | at most one message per line; the first unparsable line or failed send stops it |
| AlertLoop.DeliverRaised | commands/alert_loop.py:64-74 | the fan-out raises exactly when some entry failed to parse or names a found channel whose `channel.send` raises |
| AlertLoop.DeliverAll | commands/alert_loop.py:64-74 | when every entry parsed and every found channel accepts the message, nothing raises and each found channel gets one message, in order |
| AlertLoop.DeliverStopsAt | commands/alert_loop.py:64-74 | the first entry that is unparsable or whose send fails raises after the entries before it are served, whatever follows it |
| AlertLoop.FanOut | commands/alert_loop.py:64-74 | the delivery of `send_alert` over the registry lines: at most one message per line, and an exception exactly when some line is not `g,c` or names a found channel whose `channel.send` raises (`discord.Forbidden`, `discord.HTTPException`) |
| AlertLoop.FanOutLoop | commands/alert_loop.py:65-74 | the loop over the registry lines delivers exactly the fan-out: stop at the first unparsable line, skip unknown channels, stop at the first send that raises, message the rest in order |
| AlertLoop.SendAlert | commands/alert_loop.py:53-77 | with the cog missing nothing is built or sent; without `_build_top5_png` the call raises before any message; otherwise the image is built once and the fan-out follows the registry and the sends' outcomes |
| AlertLoop.FanOutRegistry | commands/alert_loop.py:64-74 | on a registry written by `setchannel`, the fan-out raises exactly when a found channel's `channel.send` raises; when none does, each found channel gets one message per line, in registry order, with unknown channels skipped |
| AlertLoop.FanOutSendFails | commands/alert_loop.py:64-74 | on a `setchannel` registry, the first found channel whose send raises ends `send_alert`: the found channels before it were messaged and none after |
| AlertLoop.FanOutStopsAt | commands/alert_loop.py:64-74 | a malformed line, or a line whose found channel refuses the message, raises: the lines before it are served and none after |
| AlertLoop.BlankRegistryEndsLoop | commands/alert_loop.py:47-66 | a registry of one blank line makes the alert raise, and the loop as written stops after the first of two trading days |
| AlertLoop.DeliverOnlyKnown | commands/alert_loop.py:67-74 | only channels the bot can find and whose send succeeds are messaged |

## Left out

- Network and foreign libraries are not modelled. The provider is an oracle (`Quotes.Provider`), and `getsp500` (a Wikipedia table) is not part of this model.
- Threads are not modelled. `ThreadPoolExecutor` and `as_completed` become a completion order (`Chunking.IsSchedule`). `run_in_executor` in `top5` is not part of this model.
- HelperFilterGainers.GetGainers: returns the ranked rows, not the display strings of commands/helpers/filter_gainers.py:74 or the DataFrame of line 77. The formatters are modelled separately.
- HelperGainerMt.GetGainersMt: returns the ranked rows, not the display strings of lines 60-66. The formatters are modelled separately (`Utility.FormatLargeNum`, `Utility.FormatPercentage`). Float rendering (`.2f`, `,.0f`) is out.
- Utility.FormatLargeNum: gives the suffix tier and the exact mantissa, not the two-decimal digit string.
- RootFilterGainers.FormatMarketCap: the space before the suffix and the digits are not modelled.
- RootGainerMt.GetGainersMt6: the local formatters at gainer_multiThread.py:58-88 are never reached (the table is always empty), so they are not modelled.
- HelperFilterGainers.FromReply: a previous close of exactly 0 is treated as a failure. NumPy would give `inf` or `nan`, which reals cannot represent.
- RootFilterGainers.FromReply6: a previous close of exactly 0 is treated as a failure, for the same reason; NumPy would give `inf` or `nan`.
- Prices, changes, caps and volumes are reals, not floats. A missing last close makes NumPy's `Close.iloc[-1]` NaN (commands/helpers/filter_gainers.py:31, filter_gainers.py:58); a NaN change is not None and is truthy, so it passes both filters, and Python's sort gives no order once NaN is in the list. Rounding, which can turn distinct changes into ties and so change the stable order, is not modelled either. `Ranking.SortedDesc` holds for the model, not for such inputs.
- Chunking.CeilDiv: computes `ceil(len / n)` exactly on integers. Python computes it through a float, which differs only for lists beyond 2^53 elements.
- Text.Upper: upper-cases ASCII letters only. Python's `str.upper` also maps other scripts.
- PlottingHelper.CleanName: `re.IGNORECASE` and `\b` are modelled on ASCII letters, digits and `_`. Unicode word characters are not.
- Text.ParseInt: does not accept the underscores or non-ASCII digits that Python's `int` allows.
- AlertLoop.Rounds: models a finite prefix of the `while True` loop. Whether each round's `send_alert` raises is a parameter (`raises`), the `raised` of `AlertLoop.SendAlert` for that round. It uses days of fixed length, with no daylight-saving shift, and leaves out the sleep itself.
- AlertLoop.SendAlert: as written, the call raises `AttributeError` whenever the cog is loaded, because `_build_top5_png` does not exist in the `MarketCommands` cog (commands/market_commands.py:14-61 defines only `__init__`, `eps` and `top5`). The model takes the method's presence as a parameter (`builder`), so that the fan-out after it is modelled too. The build is counted (`builds`) rather than performed. The header text, `discord.File` and the message content are not modelled.
- File I/O on `channels.txt` and `alerts_archive.txt` is out: the registry is the list of the file's lines. A missing `channels.txt` is not modelled: before the first `setchannel`, the `open` for reading in `send_alert` (commands/alert_loop.py:64) and in `removechannel` (commands/basic_commands.py:28) raises `FileNotFoundError`. In `send_alert` that exception ends the alert task in the same way as the commands/alert_loop.py:47-49 finding. `log_alert` is out too.
- The trading calendar (`is_trading_day`) is an oracle: the `trading` readings of `AlertLoop.Rounds`.
- Discord plumbing is out: cog setup, `ctx.send`, permissions, the `hello` and `eps` commands, and all `plot_*` functions. Why a `channel.send` raises (`discord.Forbidden`, `discord.HTTPException`) is not modelled. Whether it raises for a channel is the oracle `fails` of `AlertLoop.FanOut`.
- The string literal at filter_gainers.py:109-127 never runs and is not modelled.
- The sorts are modelled as values. Python's in-place `filtered.sort` and `sorted` give the same list.

## Findings

| source | as written | input that shows it | evidently intended | confidence | as-written member | corrected member |
|---|---|---|---|---|---|---|
| gainer_multiThread.py:17 | `sym, pct, mcap, vol = download_data(t)` unpacks four names from the 6-tuple that the imported `download_data` returns (filter_gainers.py:71,74), so every ticker becomes a failure row and the table is always empty | any non-empty ticker list with at least one worker, e.g. `["AAPL"]` | unpack the quote as the helper copy does, so that present rows above the floor are ranked | not executed | RootGainerMt.GetGainersMt6 | HelperGainerMt.GetGainersMt |
| commands/alert_loop.py:47-49 | `await self.send_alert()` has no `try` around it, so an exception from `send_alert` ends the task started at line 23 and no later alert is ever sent | two trading days with a registry of one blank line (`["\n"]`): the first alert raises at line 66 and the second day never comes | log the failed alert and keep scheduling the next days | not executed | AlertLoop.Rounds | AlertLoop.ResilientRounds |
| commands/helpers/filter_gainers.py:70 | the truthiness test `pct_change and ...` drops a row whose change is exactly 0.0 | a ticker whose last price equals its previous close, with cap above the floor | keep every row whose change is present (the multithreaded copy's filter at commands/helpers/gainer_multiThread.py:45-49 keeps 0.0 on purpose) | not executed | Ranking.ZeroChangeDropped | Ranking.ZeroChangeKept |
