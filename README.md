# chatStalkerAI text core, in Dafny

This project models the text-processing layer of chatStalkerAI, a tool that reads a
WhatsApp chat export and answers questions about it. The layer lives in three files:

- `utils/parser.py` turns the exported text into a table of messages:
  - `parse_whatsapp_chat` is the line-by-line state machine.
  - `parse_timestamp` tries twelve `strptime` layouts in order.
  - `is_system_message` recognises WhatsApp's own notices.
  - `get_participants` and `get_chat_stats` summarise the table.
- `utils/analytics.py` counts a word per sender (`count_word`) and finds the most
  used words (`get_top_words`).
- `utils/embeddings.py` holds the `ChatRAG` object and `is_rate_limit_error`:
  - `ChatRAG` loads the table and builds the one-line context of each row (`combined`).
  - `_simple_search` is its keyword search.
  - `query` and `get_summary` give the fixed replies that need no language model.

A table is a `seq<Row>`, where `Row(timestamp: Option<DateTime>, sender, message)`.
Rows are numbered by position, as the table built by the parser is.

Modules, leaves first:

- `Wrappers`: `Option`.
- `Text`: Python string operations, restricted to ASCII case. Covers `strip`, `split`,
  `lower`, `in`, whitespace-split words, code-point order and zero-padded decimals.
- `Slices`: Python slices `s[:n]` and `s[n:]`, with negative `n`.
- `Sorting`:
  - the stable descending sort by count of `sorted(..., key=count, reverse=True)` and
    `list.sort`, with its permutation, order and stability lemmas;
  - dropping zero counts;
  - `sorted(set(xs))`.
- `DateTimes`: a naive date-time, with:
  - `str(Timestamp)`, read back by `ParseIsoText`;
  - `strftime('%b %d, %Y')`, read back by `ParseShortDate`;
  - the stamp WhatsApp writes in its exports.
- `Timestamps`: `parse_timestamp`. The token is scanned once into fields, and each
  layout checks those fields as `strptime` would.
- `Headers`: the two header regular expressions as hand-written recognisers. They give
  the same groups as `re.match`, including its backtracking of `\s*([^:]+):`.
- `Parser`:
  - `is_system_message`;
  - the state machine as a pure fold (`Step`, `RunFrom`);
  - the imperative loop (`ReadLine`, `ReadLines`, `ParseWhatsAppChat`), proved equal
    to that fold;
  - a message-by-message description of the result (`Segments`), proved equal to the fold.
- `ChatStats`: `get_participants`, `get_chat_stats`.
- `Analytics`: `count_word`.
- `TopWords`: `get_top_words`. The dictionary-filling loop is a method, proved equal to
  a functional reference.
- `Retrieval`: `is_rate_limit_error`, the `combined` line, and the scoring and selection
  of `_simple_search` as functions.
- `Rag`: the `ChatRag` class, whose `df`/`combined` state `LoadChat` replaces.
  `SimpleSearch` scores rows in a loop. `Query` and `GetSummary` take the language
  model's outcome, and the random sample, as parameters.

## Model

| member | source | states |
|---|---|---|
| Parser.ParseWhatsAppChat | utils/parser.py:12-82 | the loop over the split lines, plus the final flush, returns exactly `ParseChat(content)`: the fold of the per-line step from "nothing held", followed by the still-held message |
| Parser.ReadLines | utils/parser.py:37-71 | after every line is read, the finished messages and the held message are those of running the step over all lines, in order, from the empty state |
| Parser.ReadLine | utils/parser.py:38-71 | one pass of the loop body. Patterns are tried in order. The first one that matches closes the held message and holds what the header opens, which is nothing for a notice. Otherwise a non-blank line is appended, stripped and after "\n", to the held message, and any other line changes nothing |
| Parser.ClassifyHeader | utils/parser.py:40-67 | when pattern `j` is the first that matches, the line is a header that opens the row built from that pattern's groups; there is no fallback to a later pattern |
| Parser.ClassifyPlain | utils/parser.py:69-71 | a line that no pattern matches is continuation text, stripped |
| Parser.ClassifyHeadingIff | utils/parser.py:40-42 | a line is treated as a header exactly when one of the two patterns matches it; otherwise it is its stripped text |
| Parser.RunFromSnoc | utils/parser.py:37-71 | reading one more line is one more step |
| Parser.RunFromAppend | utils/parser.py:37-71 | reading `a` then `b` is reading `a + b` |
| Parser.RunPlain | utils/parser.py:69-71 | a run of non-header lines only extends the held message by their continuation text, and emits nothing |
| Parser.RunBlocks | utils/parser.py:37-75 | from a header onwards, the loop emits exactly one block per header: its row, if it is not a notice, with the continuation lines up to the next header |
| Parser.ParseChatIsSegments | utils/parser.py:37-75 | the parsed rows are, in input order, one per non-notice header. Each row's message is the header's stripped body plus "\n" + stripped line for every non-blank line before the next header. Lines before the first header are dropped |
| Parser.RowsAtMostHeaders | utils/parser.py:37-75 | there are never more rows than header lines |
| Parser.RowsComeFromHeaders | utils/parser.py:41-65 | every row comes from some header line that is not a notice. Its sender is that header's stripped sender and its timestamp is `parse_timestamp` of the header's stamp, kept even when that is None |
| Parser.BlocksProvenance | utils/parser.py:41-65 | every row of a block run was opened by one of its header events |
| Parser.OneLineChat | utils/parser.py:33-82 | a file of one line gives the row that line's header opens, or nothing when the line is a notice or not a header |
| Parser.BracketSecondsLineRow | utils/parser.py:29-82 | a one-line file "[DD/MM/YYYY, HH:MM:SS] sender: message" gives one row with that date-time, sender and message, unless it is a notice |
| Parser.BracketSecondsExample | utils/parser.py:29-82 | "[12/05/2023, 14:30:05] Bob: hi" gives one row from Bob, "hi", at 14:30:05 on 12 May 2023 |
| Parser.DashLineRow | utils/parser.py:27-82 | a one-line file "DD/MM/YYYY, HH:MM - sender: message" gives one row with that date-time, sender and message, unless it is a notice |
| Parser.EncryptionNoticeDropped | utils/parser.py:55-59 | the encryption notice "01/01/2024, 09:00 - Alice: Messages and calls are end-to-end encrypted." gives no row |
| Parser.TightLineRow | utils/parser.py:40-67 | a one-line dash file with no whitespace after the stamp's comma keeps its message, with no timestamp; the bracket pattern is not tried instead |
| Parser.TightLineExample | utils/parser.py:40-67 | "1/1/24,9:00 - A: x" gives one row from A, "x", with no timestamp |
| Parser.NoHeaderNoRows | utils/parser.py:69-82 | text in which no line is a header gives no rows |
| Parser.EmptyChat | utils/parser.py:79-80 | the empty file gives no rows |
| Parser.ParsedStampsValid | utils/parser.py:50 | every parsed timestamp is a real calendar date and time |
| Parser.AnyIndicatorIff | utils/parser.py:136-140 | the loop over indicators answers true exactly when some indicator, lower-cased, occurs in the text |
| Parser.SystemMessageIff | utils/parser.py:115-140 | `is_system_message` holds exactly when some indicator, lower-cased, occurs at some position of lower("sender: message") |
| Parser.ShortIsNotNotice | utils/parser.py:118-140 | "sender: message" shorter than the shortest indicator is never a notice |
| Parser.QuotesIndicator | utils/parser.py:134-138 | a message that contains an indicator anywhere is a notice |
| Parser.NoIndicatorFits | utils/parser.py:136-140 | no indicator longer than the text occurs in it |
| Parser.SystemMessageExtend | utils/parser.py:134-138 | appending text to a notice keeps it a notice |
| Headers.DigitsThen | utils/parser.py:27 | `\d{lo,hi}<sep>`: on success, the position just after `sep`, with at least `lo` digits before it |
| Headers.StampEnd | utils/parser.py:27 | the stamp group, when it matches, is non-empty and starts with a digit |
| Headers.DateEnd | utils/parser.py:27 | `\d{1,2}/\d{1,2}/\d{2,4},` matches a non-empty prefix that starts with a digit |
| Headers.TimeEnd | utils/parser.py:27 | the time part of the stamp, when it matches, is non-empty |
| Headers.SenderAndBody | utils/parser.py:27 | `\s*([^:]+):\s*(.*)` gives a non-empty sender without a colon, and a body with no line break that does not start with whitespace |
| Headers.SenderAndBodySome | utils/parser.py:27 | the sender-and-body tail matches exactly when the line has a character at the start position, that character is not a colon, and a colon follows it somewhere |
| Headers.MatchHeaderGroups | utils/parser.py:25-30 | the groups of a matched header satisfy the sender and body guarantees, and the line starts with a digit or "[" |
| Headers.ShapesExclusive | utils/parser.py:25-30 | no line matches both patterns, so the priority order only decides which recogniser runs first |
| Headers.ExportLineMatches | utils/parser.py:27 | a line written as "DD/MM/YYYY, HH:MM - sender: message" matches the dash pattern, and its groups are that stamp, sender and message |
| Headers.BracketLineMatches | utils/parser.py:29 | "[" + a stamp with or without seconds + "] sender: message" matches the bracket pattern, and its groups are that stamp, sender and message |
| Headers.TightLineMatches | utils/parser.py:27 | a dash line whose stamp is "D/D/DD,D:DD", with no whitespace after the comma, matches the dash pattern with its three groups |
| Headers.DashLineMatches | utils/parser.py:27 | any export-shaped stamp followed by " - sender: message" matches the dash pattern with those three groups |
| Timestamps.ParseTimestampFirstMatch | utils/parser.py:103-112 | `parse_timestamp` is None exactly when every layout rejects the cleaned token. Otherwise it is the result of the first layout, in list order, that accepts it |
| Timestamps.FirstSomeIsFirstMatch | utils/parser.py:106-112 | the first-success loop returns the first present result, and none only when all are absent |
| Timestamps.FirstSomeFrom | utils/parser.py:106-112 | a present result with only absent results before it is the one returned |
| Timestamps.EarlierLayoutsDiffer | utils/parser.py:88-101 | no layout before a day-first layout accepts the same field shape |
| Timestamps.DayFirstWins | utils/parser.py:88-101 | a token that a day-first layout accepts is read day-first, even when a month-first reading also exists |
| Timestamps.OnlyDayFirstWithSeconds | utils/parser.py:93-94 | the only 24-hour layouts with seconds are day-first |
| Timestamps.NoMonthFirstWithSeconds | utils/parser.py:88-101 | a 24-hour token with seconds that is only valid month-first has no timestamp |
| Timestamps.ParseTimestampValid | utils/parser.py:108 | a parsed timestamp is a valid date and time |
| Timestamps.ParseWith | utils/parser.py:108 | a layout accepts a token only when the token scans into fields of that layout's shape, and then gives a valid date-time |
| Timestamps.Interpret | utils/parser.py:108 | reading fields by a layout succeeds only for that layout's shape and gives a valid date-time |
| Timestamps.Number | utils/parser.py:89-100 | a numeric field is accepted only within its range |
| Timestamps.DayNumber | utils/parser.py:89-100 | `%d` gives a day in 1..31 |
| Timestamps.YearNumber | utils/parser.py:89-100 | `%Y` and `%y` give a year in 1..9999 |
| Timestamps.CleanOfStamp | utils/parser.py:104 | cleaning leaves an export-shaped stamp unchanged |
| Timestamps.ExportStampParses | utils/parser.py:88-112 | the stamp WhatsApp writes for any valid date-time with zero seconds parses back to that date-time |
| Timestamps.SecondsStampParses | utils/parser.py:88-112 | the stamp "DD/MM/YYYY, HH:MM:SS" of any valid date-time parses back to that date-time, seconds included |
| Timestamps.ScanOfSecondsStamp | utils/parser.py:108 | a stamp with seconds scans into its day, month, year, hour, minute and second fields, with no AM/PM marker |
| Timestamps.InterpretSeconds | utils/parser.py:93 | `%d/%m/%Y, %H:%M:%S` reads the padded fields of a valid date-time back to it |
| Timestamps.NoScanNoTimestamp | utils/parser.py:104-112 | a cleaned token that does not split into date and time fields has no timestamp |
| Timestamps.TightStampRejected | utils/parser.py:89-112 | a stamp "D/D/DD,D:DD" has no timestamp, because every layout needs whitespace after the comma |
| Timestamps.NoSpaceAfterComma | utils/parser.py:89-112 | "1/1/24,9:00" has no timestamp |
| Timestamps.ExportStampFirstLayout | utils/parser.py:89 | that stamp is accepted by the first layout, `%d/%m/%Y, %H:%M` |
| DateTimes.Earliest | utils/parser.py:168 | the minimum is one of the timestamps and none is earlier |
| DateTimes.Latest | utils/parser.py:169 | the maximum is one of the timestamps and none is later |
| DateTimes.BeforeTransitive | utils/parser.py:168-169 | the order used by min and max is transitive |
| DateTimes.ShortDateRoundTrip | utils/parser.py:171 | `%b %d, %Y` renders 12 characters and reads back to the year, month and day |
| DateTimes.ExportStampSecondsShape | utils/parser.py:29 | the stamp with seconds is 20 characters: a minute-precision stamp, ":" and two digits of seconds |
| DateTimes.IsoTextRoundTrip | utils/embeddings.py:34 | `str(timestamp)` renders 19 characters and reads back to the same date-time |
| ChatStats.GetParticipants | utils/parser.py:143-147 | strictly ascending, so no duplicates. It holds a name exactly when some row has that sender, has as many names as there are distinct senders, and is empty for an empty table |
| ChatStats.ParticipantsAreSenders | utils/parser.py:143-147 | a name is listed exactly when some row was sent by it |
| ChatStats.SendersIff | utils/parser.py:147 | the sender column holds exactly the senders of the rows |
| ChatStats.Stamps | utils/parser.py:166 | `dropna()` keeps only present timestamps, keeps every present timestamp of the table, and is no longer than the table |
| ChatStats.StampsEmptyIff | utils/parser.py:165-167 | no timestamps remain exactly when every row lacks one |
| ChatStats.GetChatStats | utils/parser.py:150-173 | the empty table gives (0, 0, "N/A"). Otherwise the total is the row count, the participant count is the number of distinct senders and at most the row count, and the range is "N/A" exactly when no row has a timestamp |
| ChatStats.DateRange | utils/parser.py:171 | the range text is always 27 characters |
| ChatStats.DateRangeParts | utils/parser.py:171 | for two valid date-times the range text is 27 characters, " - " sits at positions 12..15, and each side reads back to its date |
| ChatStats.DateRangeSpan | utils/parser.py:165-171 | with some timestamp present, the range is "<earliest> - <latest>", and each side reads back to the date of the minimum and the maximum |
| ChatStats.OneDayRange | utils/parser.py:159-171 | one message on 5 January 2024 gives (1, 1, "Jan 05, 2024 - Jan 05, 2024") |
| Analytics.FromSender | utils/analytics.py:29 | the sender filter keeps every row of that sender, as often as it occurs, and no other row |
| Analytics.FilteredRows | utils/analytics.py:28-31 | with no participant, "" or "All", every row is counted; otherwise exactly the rows of that sender |
| Analytics.Matches | utils/analytics.py:38-42 | every reported position is an occurrence of the word at or after the start, and the positions increase without overlapping |
| Analytics.MatchesMaximal | utils/analytics.py:42 | no occurrence is missed: each one overlaps a reported match that starts at or before it |
| Analytics.MatchesFit | utils/analytics.py:42 | the non-overlapping matches fit in the text |
| Analytics.MatchesNone | utils/analytics.py:42 | no occurrence, no match |
| Analytics.CountMatchesMeaning | utils/analytics.py:38-43 | a non-empty word is counted at least once exactly when it occurs in the message ignoring case, and at most \|message\|/\|word\| times |
| Analytics.LovePizzaOnce | utils/analytics.py:38-43 | "pizza" is counted once in "i love pizza" |
| Analytics.PizzaOnce | utils/analytics.py:38-43 | "pizza" is counted once in "PIZZA is great" |
| Analytics.Tallies | utils/analytics.py:41-43 | each row contributes its sender and its match count |
| Analytics.Grouped | utils/analytics.py:49 | each sender gets the sum of its rows' counts |
| Analytics.GroupedTotal | utils/analytics.py:46-49 | grouping by sender keeps the total |
| Analytics.CountWord | utils/analytics.py:24-34 | when the filter leaves no rows, the result is total 0 and no entries |
| Analytics.CountWordEmpty | utils/analytics.py:24-25 | the empty table gives total 0 and no entries |
| Analytics.CountWordTotal | utils/analytics.py:46-58 | `total` is the sum of all per-message counts and also the sum of the `by_participant` values |
| Analytics.CountWordEntries | utils/analytics.py:49-55 | every entry is a selected sender with its positive summed count, and every selected sender with a positive sum has an entry |
| Analytics.CountWordOrdered | utils/analytics.py:49-52 | entries are ordered by count, largest first, and tied senders keep ascending name order |
| Analytics.PizzaCount | utils/analytics.py:24-58 | Alice's "i love pizza" and Bob's "PIZZA is great" give total 2 and one count each, Alice first |
| Analytics.CountWordSelected | utils/analytics.py:28-29 | with a participant selected, every entry is that participant |
| TopWords.WordRun | utils/analytics.py:89 | a maximal run of `\w` characters |
| TopWords.Tokens | utils/analytics.py:89 | every token has three or more characters, all ASCII letters that occur in the text |
| TopWords.TokensSpace | utils/analytics.py:86-89 | the tokens of "a b" are the tokens of a followed by those of b, so no token spans two messages |
| TopWords.TokensOfJoin | utils/analytics.py:86-89 | tokenising the space-joined, lower-cased messages gives the tokens of each message in turn |
| TopWords.TokensWord | utils/analytics.py:89 | a word of three or more ASCII letters is its own single token |
| TopWords.TokensJoinWords | utils/analytics.py:86-89 | the tokens of space-joined words of three or more letters are exactly those words, in order |
| TopWords.TokensHasRun | utils/analytics.py:89 | every maximal run of three or more ASCII letters, not preceded by a word character, is a token |
| TopWords.TokensLowerCase | utils/analytics.py:89 | every token is lower-case |
| TopWords.CountWords | utils/analytics.py:103-106 | the dictionary-filling loop produces, in insertion order, exactly the reference counts `WordCounts` |
| TopWords.AgreesBumpKnown | utils/analytics.py:105-106 | incrementing a present word keeps the dictionary and its insertion order in step with the reference |
| TopWords.AgreesBumpNew | utils/analytics.py:105-106 | inserting a new word with count 1 appends it to the insertion order and keeps the two views in step |
| TopWords.WordCountsMeaning | utils/analytics.py:103-106 | the dictionary holds each non-stop token once, in order of first appearance, with the number of times it occurs |
| TopWords.WordCountsCover | utils/analytics.py:103-106 | every non-stop token has an entry |
| TopWords.WordCountsKeys | utils/analytics.py:103-106 | every key is a non-stop token |
| TopWords.WordCountsOrder | utils/analytics.py:103-106 | keys are in order of first appearance, without repeats |
| TopWords.WordCountsValues | utils/analytics.py:103-106 | each value is the number of occurrences of its key |
| TopWords.GetTopWords | utils/analytics.py:63-111 | the method returns the top-words reference: no rows give nothing, otherwise the first `top_n` of the sorted counts |
| TopWords.RankedEntries | utils/analytics.py:108-111 | at most `top_n` entries, each a non-stop token with its positive occurrence count |
| TopWords.RankedTies | utils/analytics.py:108-109 | entries are ordered by count, largest first, and ties keep order of first appearance |
| TopWords.RankedTop | utils/analytics.py:108-111 | a counted word left out of the result occurs no more often than any word in it |
| TopWords.RankedTopOne | utils/analytics.py:108-111 | a counted entry outside the top is outranked by every entry in it |
| TopWords.TopWordsEntries | utils/analytics.py:89-111 | at most `top_n` entries. Each key is lower-case, has at least three letters and is not a stop word, and each value is its positive occurrence count in the selected messages |
| TopWords.TopWordsRanked | utils/analytics.py:103-111 | for every table, the result is ordered by count with ties in order of first appearance, and no counted word left out occurs more often than a listed one |
| TopWords.TopWordsFromMessages | utils/analytics.py:76-86 | the empty table gives no words, whatever `top_n` is. The tokens of the joined, lower-cased text are those of each selected message in turn |
| Sorting.SortByCountDesc | utils/analytics.py:52 | the sort is a permutation of its input |
| Sorting.SortedByCount | utils/analytics.py:109 | the sort's result is ordered by count, largest first |
| Sorting.SortIsStable | utils/embeddings.py:53 | entries with equal counts keep their input order |
| Sorting.SortKeepsEntries | utils/analytics.py:52 | the sort keeps exactly the entries it was given |
| Sorting.SumCountsSorted | utils/analytics.py:52 | sorting keeps the total count |
| Sorting.DropZeros | utils/analytics.py:55 | the filter keeps exactly the entries with a positive count |
| Sorting.DropZerosNone | utils/embeddings.py:54 | when every count is zero nothing is kept |
| Sorting.DropZerosAll | utils/analytics.py:55 | when every count is positive everything is kept |
| Sorting.DropZerosOrdered | utils/analytics.py:55 | filtering keeps the count-then-tie order |
| Sorting.DropZerosSum | utils/analytics.py:55 | dropping zeros keeps the total |
| Sorting.SortedDistinct | utils/parser.py:147 | `sorted(unique)` is strictly ascending and holds exactly the input's elements |
| Sorting.StrictlySortedCard | utils/parser.py:147 | a strictly ascending list has as many elements as distinct values |
| Sorting.DistinctAtMostLength | utils/parser.py:161 | there are never more distinct values than entries |
| Slices.PySliceTo | utils/analytics.py:111 | `s[:n]` is a prefix of length min(n, \|s\|) for n ≥ 0, and \|s\|+n (at least 0) for n < 0 |
| Slices.PySliceFrom | utils/embeddings.py:57 | `s[n:]` is a suffix of length \|s\|-n (at least 0) for n ≥ 0, and min(-n, \|s\|) for n < 0 |
| Text.Strip | utils/parser.py:53 | the stripped text is empty or starts and ends with non-whitespace, and is empty exactly when the text is all whitespace; `StripTrims` adds that only whitespace at the two ends is removed |
| Text.StripTrims | utils/parser.py:64 | the stripped text is a slice of the text, and everything removed before and after it is whitespace |
| Text.StripIdempotent | utils/parser.py:71 | stripping twice is stripping once |
| Text.Split | utils/parser.py:33 | `split('\n')` gives at least one part, no part holds a line break, and joining the parts with "\n" gives back the text |
| Text.SplitJoin | utils/parser.py:33 | splitting the join of line-break-free parts gives back the parts |
| Text.Words | utils/embeddings.py:45 | `split()` gives non-empty words without whitespace, and no words exactly when the text is all whitespace |
| Text.WordsJoin | utils/embeddings.py:45 | splitting the space-joined list of non-empty, whitespace-free words gives back the list |
| Text.WordsFirst | utils/embeddings.py:45 | a whitespace-free word followed by nothing or by whitespace is the first word of the split |
| Text.ContainsIff | utils/parser.py:137 | `in` on strings holds exactly when the pattern occurs at some position |
| Text.LowerAppend | utils/parser.py:137 | lower-casing distributes over concatenation |
| Text.LessTransitive | utils/parser.py:147 | the string order of `sorted` is transitive |
| Text.LessTotal | utils/parser.py:147 | of two different strings one comes first |
| Retrieval.RateLimitIff | utils/embeddings.py:12-15 | an error is a rate limit exactly when its lower-cased text contains "quota", "limit", "exhausted", "rate", "429" or "resource" |
| Retrieval.FailureReply | utils/embeddings.py:95-98 | a failed model call answers with the "broke" message exactly for rate-limit errors, and with "try again" otherwise |
| Retrieval.QuotaIsRateLimit | utils/embeddings.py:12-15 | any error text containing "Quota exceeded" gets the "broke" reply |
| Retrieval.CombinedReadsBack | utils/embeddings.py:33-38 | without a timestamp the line is "sender: message". With one, it is "[" + a 19-character date-time that reads back to the timestamp + "] sender: message" |
| Retrieval.CombinedColumn | utils/embeddings.py:33-38 | one line per row |
| Retrieval.Score | utils/embeddings.py:50 | a score is at most the number of query words |
| Retrieval.ScorePositiveIff | utils/embeddings.py:49-50 | a row scores above zero exactly when some query word occurs in its lower-cased message |
| Retrieval.ScoreColumn | utils/embeddings.py:47-51 | row `i` gets the score of its message |
| Retrieval.Pick | utils/embeddings.py:59 | `loc[positions, 'combined']` gives the line at each position, in the order given |
| Retrieval.RankingEntries | utils/embeddings.py:53 | every sorted entry is (position, score of that position) |
| Retrieval.RankingHas | utils/embeddings.py:53 | every position appears in the sorted list with its score |
| Retrieval.RankingOrdered | utils/embeddings.py:53 | the sorted scores descend, with ties in ascending position |
| Retrieval.PickedEntries | utils/embeddings.py:54 | each kept entry is a real position with its positive score |
| Retrieval.PickedOrdered | utils/embeddings.py:54 | the kept entries keep the score-then-position order |
| Retrieval.ChooseInRange | utils/embeddings.py:54-57 | every chosen position is a row of the table |
| Retrieval.SelectionInRange | utils/embeddings.py:54-59 | every selected position is a row of the table |
| Retrieval.ChooseEmptyIff | utils/embeddings.py:54-57 | the search finds nothing exactly when there are no rows or `top_k` ≤ -(number of rows) |
| Retrieval.ChooseSize | utils/embeddings.py:53-57 | for `top_k` > 0 at most `top_k` rows. For `top_k` = 0 every row, in order |
| Retrieval.LastPositions | utils/embeddings.py:57 | `index[-k:]` is the last min(k, n) positions, in order |
| Retrieval.ChooseFallback | utils/embeddings.py:56-57 | when no row scores, the result is the last min(`top_k`, rows) positions in order |
| Retrieval.ChoosePicks | utils/embeddings.py:54-56 | when some row scores and `top_k` > 0, the fallback is not taken |
| Retrieval.ChooseRanked | utils/embeddings.py:53-54 | when some row scores, the result has 1..`top_k` positions, all scoring. They are ordered by score, largest first, with ties in position order |
| Retrieval.ChooseDominates | utils/embeddings.py:53-54 | a scoring row left out means the result is full and every chosen row scores higher, or equal and earlier |
| Retrieval.SelectionRanked | utils/embeddings.py:45-54 | when some message contains a query word, every selected row's message contains one |
| Retrieval.SelectionFallback | utils/embeddings.py:45-57 | when no message contains a query word, the result is the last `top_k` rows in order |
| Rag.ModelReply | utils/embeddings.py:92-98 | the reply is the model's text, or for a failure the "broke" message exactly when the error is a rate limit |
| Rag.SummaryLines | utils/embeddings.py:106-109 | at most 50 context lines, all from the table. With 50 rows or fewer, all lines in order |
| Rag.ChatRag.constructor | utils/embeddings.py:21-26 | a new object holds no chat |
| Rag.ChatRag.LoadChat | utils/embeddings.py:28-38 | after loading, the object holds the rows and one `combined` line per row |
| Rag.ChatRag.SimpleSearch | utils/embeddings.py:40-59 | no chat or no rows give nothing. Otherwise the scoring loop and the sort return the `combined` lines of the selection that the `Choose` lemmas describe |
| Rag.ChatRag.Query | utils/embeddings.py:61-98 | no rows give the "no chat data" reply. An empty search gives the "no relevant messages" reply, which happens exactly when `top_k` ≤ -(number of rows). Otherwise the context is the found lines joined by "\n" and the reply is the model's |
| Rag.ChatRag.GetSummary | utils/embeddings.py:100-130 | no rows give the "nothing to summarize" reply. Otherwise the context is the (sampled) `combined` lines joined by "\n" and the reply is the model's |

## Left out

- Strip: its own contract leaves out that only whitespace at the two ends is removed. `Text.StripTrims` proves that separately, so that the many proofs that use `Strip` do not carry the existential.
- `app.py` (Streamlit pages, widgets, charts, upload) is not part of this model.
- The language model is not modelled:
  - `genai.configure`, `GenerativeModel`, `generate_content` and the prompt templates are out.
  - `Query` and `GetSummary` take the call's outcome (its text, or the error it raised) as a parameter.
  - The API key and model name that the constructor stores are out.
- `Rag.ChatRag.GetSummary`: the random draw of `df.sample(n=50)` is a parameter. Any 50 distinct row positions are allowed.
- Regular expressions are hand-written recognisers for the two header patterns and the
  tokeniser; the `re` engine itself is not modelled. `\s` is the whitespace that
  `str.isspace` accepts.
- Letters, digits and case are ASCII only:
  - `lower()` and `re.IGNORECASE` fold only A-Z;
  - `\w`, `\d` and `[a-zA-Z]` use ASCII classes.
  Non-ASCII letters and digits behave differently in Python.
- `strptime` is modelled field by field, for the twelve layouts only. Locale-dependent
  parts and non-ASCII digits are out.
- `%Y` renders years below 1000 zero-padded to four digits. Some C libraries print fewer digits there.
- pandas is not modelled:
  - A DataFrame is a sequence of rows with positional index labels, as the parser builds them.
  - `copy`, `apply`, `groupby`, `dropna` and `nunique` become sequence functions.
  - `NaT` is `None`.
  - Checks for missing columns cannot fail, because every row has all three fields.
  - `pd.notna` on a message is always true.
  - `if min_date and max_date` is always true.
- The sorts `scores.sort(...)` and `sorted(...)` are the stable function `SortByCountDesc`
  on values. In-place update of the `scores` list is not modelled.
- `current_message['message'] += ...` updates a dictionary in place. The model instead
  reassigns an `Option<Row>` value. No aliasing is lost: a dictionary is appended to
  `messages` only when it stops being updated.
- `Rag.ChatRag.LoadChat`: the `combined` column is stored beside the rows rather than as a
  column of the frame. Its contents are the same.
- Integer widths: pandas sums are 64-bit; the model's counts are unbounded.
- The empty-frame corner of `DataFrame.apply` in `load_chat` is out. `ChatRag` is only
  loaded with parsed tables, and `Valid` covers the empty table by an empty `combined`.
