# DecentDB: seed plan, evidence, value text and benchmark gate

This project models four self-contained parts of DecentDB and proves what they are for.

* **Seed plan and evidence** (`SplitMix`, `SplitMixBits`, `SeedPlan`, `PlanLaws`, `DrawLaws`, `Queries`,
  `EndToEnd`, `Soundness`, `Checksum`, `ChecksumFormat`): the SplitMix64 stream of the benchmark runner, the walk that splits an album quota over artists and a
  song quota over albums, the meaning of the seven benchmark queries over the tables it emits, the checker
  of their answers, and the order-insensitive checksum of the rows.
* **Value text of the JNI bridge** (`Calendar`, `Timestamp`, `TimestampCanon`, `Ipv6`, `Ipv6Text`,
  `Options`, `OptionsText`, `RowCache`, `RowCursor`): the closed-form calendar, timestamp text, IPv6 text,
  the option tokenizer, and the cache of the current row.
* **Exact decimals of the Go binding** (`Decimals`, `DecimalText`): printer, parser and `Scan`.
* **The benchmark gate** (`Gate`, `TrialMatrix`, `MatrixExact`, `ProcFile`): median against leader count, the
  exact trial matrix, and the reading of proc files.

`Machine`, `Text`, `Semantic`, `Sorting`, `Sets` and `Wrappers` hold what several of them share.

How the model is set up:

* Machine integers are mathematical integers with wrapping, narrowing and truncating division written out.
  Word streams are functions from positions to 64-bit words, so every statement about the plan holds for
  every seed and for every other stream too.
* Emission callbacks append to sequences. Sources of outside behaviour are parameters: the hash, the rows a
  statement execution yields, the schedule of reads, the place where a database is expected.
* Doubles are reals in the evidence checker and in the gate, and bit patterns in the checksum.
* A hash to 32 bytes cannot be injective, so `ChecksumDecides` does not assume it: it shows that a wrong
  verdict exhibits two different strings, both actually hashed, with the same digest.

The main operations are pinned twice. Methods compute a function of their inputs, and that function is then tied
to something that does not mention it: a position and a reduction of the word stream, a decoder written from
the format, a canonical text with a proof that no other text will do, an exact description of the accepted rows.

Where the code does less than its surroundings promise, the model follows the code and gives the exact
condition:

* An IPv6 run of zeros that starts at word 0 is written with one leading colon (`:1` for the loopback
  address), which section 2.2 of RFC 4291 does not allow. `ExpandRendered` shows the text is malformed
  exactly then, and that it still determines the address.
* `bindFloat64` is the one bind that does not drop the cached row. `StepCoherent` and `CacheTransparent`
  show that the cache goes stale exactly when it hits the statement whose row is cached.
* The top-ten checks demand ten rows, so they reject correct answers over fewer groups. `AnswersDecided` and
  `CorrectAnswersAccepted` give the condition, and `NineGroupsRejected` a scale at which all are rejected.
* The walk gives every artist but the last at least one album, so it creates more albums than asked for when
  they are fewer than the artists but one, and without artists it creates none. `AlbumsAsAsked` gives the
  exact condition and `AlbumsNotAsAsked` one scale of either kind.

## Model

| member | source | states |
|---|---|---|
| SplitMix.Rng.NextU64 | benchmarks/rust-baseline/src/main.rs:669-675 | the draw is the stream's word at the current position, and the position moves on by one |
| SplitMix.Rng.Skip | benchmarks/rust-baseline/src/main.rs:676-680 | skipping `count` moves the position exactly as `count` draws would |
| SplitMix.Rng.GenRange | benchmarks/rust-baseline/src/main.rs:682-687 | the next word reduced below `n`; a zero bound yields 0 and consumes nothing |
| SplitMix.SkipIsDraws | benchmarks/rust-baseline/src/main.rs:669-680 | one multiplication modulo 2^64 equals n additions of the increment |
| SplitMix.UnmixMix | benchmarks/rust-baseline/src/main.rs:669-675 | the output function has a left inverse on 64-bit words |
| SplitMix.MixUnmix | benchmarks/rust-baseline/src/main.rs:669-675 | and a right inverse, so it is a bijection |
| SplitMix.OutputPosition | benchmarks/rust-baseline/src/main.rs:661-680 | a word is output at exactly one position modulo 2^64, given in closed form: every word occurs once per period |
| SplitMix.NeverRepeats | benchmarks/rust-baseline/src/main.rs:661-680 | two positions fewer than 2^64 apart output different words |
| SplitMixBits.OutputBits | benchmarks/rust-baseline/src/main.rs:661-680 | the word at a position is the one that the increments, the xor-shifts read bit by bit and the two products make of the seed, with the constants spelled out, and no other |
| SeedPlan.Walk | benchmarks/rust-baseline/src/main.rs:755-830 | for every scale, seed and choice of flags, the selective walk, which skips draws, shows exactly the enabled rows of the full plan and the same counters |
| SeedPlan.WalkAlbum | benchmarks/rust-baseline/src/main.rs:784-812 | one album, drawn or skipped, ends at the same stream position with the same counters |
| SeedPlan.EmitSongs | benchmarks/rust-baseline/src/main.rs:791-800 | n songs with consecutive identifiers cost exactly n words |
| SeedPlan.DesiredAlbums | benchmarks/rust-baseline/src/main.rs:771-780 | the grant to one artist and what it costs the quota and the stream |
| SeedPlan.Summarize | benchmarks/rust-baseline/src/main.rs:751-753 | a walk that emits nothing counts the rows of the full plan |
| SeedPlan.SeedTables | benchmarks/rust-baseline/src/main.rs:2095-2149 | the four separate walks of a benchmark run yield the summary and tables of one plan |
| PlanLaws.PrefixLaws | benchmarks/rust-baseline/src/main.rs:763-823 | after every artist: both quota ledgers, both ownership ledgers, the row invariants and the word count hold |
| PlanLaws.DoublingFits | benchmarks/rust-baseline/src/main.rs:773-780 | the 32-bit doubling of the average share never overflows |
| PlanLaws.AlbumConservation | benchmarks/rust-baseline/src/main.rs:766-783 | the exact number of albums for every scale; every artist owns their share, which is at least one except for the last artist when albums are too few |
| PlanLaws.AlbumsAsAsked | benchmarks/rust-baseline/src/main.rs:766-783 | the walk creates as many albums as the scale says exactly when they are at least the artists but one, or, without artists, none |
| PlanLaws.AlbumsNotAsAsked | benchmarks/rust-baseline/src/main.rs:766-783 | three artists and one album make two albums, no artists and one album make none |
| PlanLaws.SongConservation | benchmarks/rust-baseline/src/main.rs:784-803 | songs total the smaller of all draws and the cap; each album keeps its whole draw until the cap binds, and a cut draw fills the cap |
| PlanLaws.CounterFits | benchmarks/rust-baseline/src/main.rs:784-789 | the songs so far plus a draw stay a 64-bit integer when the cap or the largest possible number of songs leaves room |
| PlanLaws.WordsConsumed | benchmarks/rust-baseline/src/main.rs:763-823 | the exact number of words a walk consumes, at every scale |
| PlanLaws.ReferentialIntegrity | benchmarks/rust-baseline/src/main.rs:769-823 | identifiers are dense from 1, values in range, every song names an emitted album and its artist, every album an emitted artist |
| PlanLaws.CapIs | benchmarks/rust-baseline/src/main.rs:767-767 | the cap is the cast to i64, and a negative one admits no song |
| DrawLaws.DrawPositions | benchmarks/rust-baseline/src/main.rs:769-823 | every share, number of songs, duration, release year, country and formation year is the stated reduction of the word at a position given in closed form by the ledgers |
| DrawLaws.PrefixLocal | benchmarks/rust-baseline/src/main.rs:763-823 | the tables depend on the words consumed and on no other |
| DrawLaws.EveryShareOccurs | benchmarks/rust-baseline/src/main.rs:771-780 | whatever the shares before, every share from one to the smaller of twice the average and the cap occurs for some stream |
| Queries.Validate | benchmarks/rust-baseline/src/main.rs:1061-1221 | the checker accepts exactly the rows its declarative form describes, for all seven queries |
| Queries.ValidateAggregate | benchmarks/rust-baseline/src/main.rs:1094-1112 | the column and value checks in turn decide the declarative form of an aggregate row, a count of zero included |
| Queries.ValidateArtist | benchmarks/rust-baseline/src/main.rs:1126-1139 | likewise for an artist row |
| Queries.ValidateView | benchmarks/rust-baseline/src/main.rs:1182-1194 | likewise for a row of the view |
| Queries.ValidateFiltered | benchmarks/rust-baseline/src/main.rs:1201-1211 | likewise for a row of the filtered view |
| Queries.ValidateTop | benchmarks/rust-baseline/src/main.rs:1156-1172 | one pass with a set and the previous count decides distinct identifiers and descending counts |
| EndToEnd.JoinSize | benchmarks/rust-baseline/src/main.rs:858-869 | the three-way join of the view has exactly one row per song |
| EndToEnd.AlbumHasSong | benchmarks/rust-baseline/src/main.rs:784-803 | at every scale an album has a song exactly when the draws before it stay below the cap |
| EndToEnd.ArtistHasSong | benchmarks/rust-baseline/src/main.rs:766-803 | at every scale an artist has a song exactly when their first album does |
| EndToEnd.SomeSong | benchmarks/rust-baseline/src/main.rs:766-803 | there is a song, and artist 1 has one, exactly when there is an album and the cap is positive |
| EndToEnd.ArtistGroupCount | benchmarks/rust-baseline/src/main.rs:2242-2258 | the top-artist query has at least k groups exactly when artist k has a song |
| EndToEnd.AlbumGroupCount | benchmarks/rust-baseline/src/main.rs:2268-2284 | the top-album query has at least k groups exactly when album k has a song |
| EndToEnd.AnswersDecided | benchmarks/rust-baseline/src/main.rs:1061-1221 | at every scale and seed, a correct answer is accepted exactly under a condition on the scale alone, or, for the top-ten queries, on the draws before the tenth album and before the first album of the tenth artist |
| EndToEnd.CorrectAnswersAccepted | benchmarks/rust-baseline/src/main.rs:1061-1221 | when the cap never binds, all correct answers to all seven queries are accepted, the top-ten ones exactly from ten artists or albums on |
| EndToEnd.NineGroupsRejected | benchmarks/rust-baseline/src/main.rs:1144-1149 | at nine artists with one album and one song each the top-ten queries have correct answers, all of them rejected |
| EndToEnd.AnswersExist | benchmarks/rust-baseline/src/main.rs:2171-2331 | at every scale every query has a correct answer, the aggregate exactly when the duration sum is a 64-bit integer, so the acceptance theorem is never about nothing |
| EndToEnd.AmplePopulated | benchmarks/rust-baseline/src/main.rs:763-823 | when the cap never binds every artist and every album has a song |
| Soundness.CountDecided | benchmarks/rust-baseline/src/main.rs:1071-1084 | the song count is accepted exactly when it is the answer |
| Soundness.AggregateDecided | benchmarks/rust-baseline/src/main.rs:1087-1112 | the aggregate is accepted exactly with the true count, positive sum and minimum, and an average between the bounds and within 10^-9 of sum over count |
| Soundness.AggregateShape | benchmarks/rust-baseline/src/main.rs:1087-1099 | nothing but one row of five such cells is accepted |
| Soundness.AverageDecided | benchmarks/rust-baseline/src/main.rs:1100-1112 | an aggregate right but for its average is accepted exactly when the average is within 10^-9 of the true mean and between the shortest and the longest song |
| Soundness.LookupDecided | benchmarks/rust-baseline/src/main.rs:1119-1139 | the lookup is accepted exactly for the id and name of the middle artist, with a country and a plausible year |
| Soundness.LookupSound | benchmarks/rust-baseline/src/main.rs:1119-1139 | an accepted lookup has the id and the name of the one row of every correct answer |
| Soundness.TopDecided | benchmarks/rust-baseline/src/main.rs:1144-1172 | ten named rows are accepted exactly with distinct ids and descending counts |
| Soundness.TopShape | benchmarks/rust-baseline/src/main.rs:1144-1172 | accepted top-ten rows are ten named rows with positive id and count |
| Soundness.TopSound | benchmarks/rust-baseline/src/main.rs:1144-1172 | an accepted top-ten answer is correct exactly when its ids and counts are |
| Soundness.ViewDecided | benchmarks/rust-baseline/src/main.rs:1174-1195 | view rows are accepted exactly in the announced number, each naming its artist, an album and a song |
| Soundness.FilteredDecided | benchmarks/rust-baseline/src/main.rs:1197-1212 | filtered rows are accepted exactly when there is one and each names an album and a song with a positive duration |
| Soundness.ViewSound | benchmarks/rust-baseline/src/main.rs:1182-1194 | an accepted view row names its artist as the view does |
| Checksum.SemanticChecksum | benchmarks/rust-baseline/src/main.rs:977-1023 | the loops compute the checksum function |
| Checksum.EncodeRowInjective | benchmarks/rust-baseline/src/main.rs:983-1011 | the string hashed for a row determines the row, types included |
| Checksum.CellPrefixFree | benchmarks/rust-baseline/src/main.rs:978-1010 | tagged, length-prefixed cells are prefix-free |
| Sorting.OrderedUnique | benchmarks/rust-baseline/src/main.rs:1015-1015 | under a total order a multiset has one sorted arrangement, so the order of the digests is determined |
| Checksum.DigestsOrdered | benchmarks/rust-baseline/src/main.rs:1015-1015 | byte by byte comparison of digests is a total order |
| Checksum.ChecksumPermuted | benchmarks/rust-baseline/src/main.rs:977-1023 | reordering rows never changes the checksum |
| Checksum.ChecksumDecides | benchmarks/rust-baseline/src/main.rs:977-1023 | equal checksums mean equal multisets of rows, or a collision among the strings that were hashed |
| ChecksumFormat.RowRoundTrip | benchmarks/rust-baseline/src/main.rs:983-1011 | a decoder written from the format, with literal header, tags and little-endian lengths, reads the row back from the string hashed for it |
| ChecksumFormat.EvidenceFormat | benchmarks/rust-baseline/src/main.rs:1015-1021 | the evidence string decodes to the digests of all rows, each smaller than the next at the first byte in which they differ, or equal |
| ChecksumFormat.ChecksumText | benchmarks/rust-baseline/src/main.rs:1022-1022 | the checksum spells the hash of the evidence string in 64 lower-case hexadecimal digits |
| Calendar.CivilCorrect | bindings/java/native/decentdb_jni.c:73-88 | every day gets a valid Gregorian date whose day number, counted by years, months and days, is that day |
| Calendar.CivilInverse | bindings/java/native/decentdb_jni.c:73-88 | every valid date is the date of its day number: a two-sided inverse over all integers |
| Calendar.CivilIsCalendar | bindings/java/native/decentdb_jni.c:73-88 | day 0 is 1970-01-01 and day d + 1 is the calendar successor of day d |
| Calendar.DayNumberOrder | bindings/java/native/decentdb_jni.c:73-88 | day numbers order dates chronologically |
| Calendar.CopiesAgree | benchmarks/rust-baseline/src/main.rs:3405-3418 | the runner's copy, with its narrowing casts, agrees exactly when the year is a 32-bit integer, hence for every 32-bit day |
| Timestamp.SplitIsFloor | bindings/java/native/decentdb_jni.c:126-131 | truncating division with the correction is floor division into day and time of day |
| Timestamp.TimestampFits | bindings/java/native/decentdb_jni.c:125-138 | for every 64-bit timestamp the 32-bit cast of the day loses nothing and no inner buffer truncates; a buffer of any size gets the text or what fits of it |
| Timestamp.TimestampRoundTrip | bindings/java/native/decentdb_jni.c:90-138 | the text decodes to the timestamp it was printed from |
| Timestamp.TimestampOrder | bindings/java/native/decentdb_jni.c:90-138 | in the years 0 to 9999 texts sort as instants do |
| TimestampCanon.TimestampUnique | bindings/java/native/decentdb_jni.c:90-138 | the text has a four-digit or shortest year and fields in range, and is the one text of that form that names the instant |
| Ipv6.WordsNumber | bindings/java/native/decentdb_jni.c:145-148 | the eight words denote the number of the sixteen bytes in network order |
| Ipv6.BestRunUnique | bindings/java/native/decentdb_jni.c:150-165 | at most one answer is a leftmost longest run, so the loop's contract fixes what it finds |
| Ipv6.FindRun | bindings/java/native/decentdb_jni.c:150-165 | the loop finds the leftmost longest run of at least two zero words, or that there is none |
| Ipv6.WriteWords | bindings/java/native/decentdb_jni.c:167-197 | the second loop writes the rendered text and its terminator, or reports that they do not fit |
| Ipv6.FormatIpv6 | bindings/java/native/decentdb_jni.c:144-198 | success exactly when text and terminator fit, and always with 40 bytes |
| Ipv6.RenderedLength | bindings/java/native/decentdb_jni.c:167-198 | at most 39 characters |
| Ipv6.ExpandRendered | bindings/java/native/decentdb_jni.c:167-198 | expansion by RFC 4291 gives the words back exactly when the run does not start at word 0, and fails otherwise; reading a leading colon as a run always gives them back |
| Ipv6.RenderedInjective | bindings/java/native/decentdb_jni.c:144-198 | no two addresses share a text |
| Ipv6.LoopbackMalformed | bindings/java/native/decentdb_jni.c:170-182 | the loopback address is written `:1`, which does not expand |
| Ipv6Text.RenderedCanonical | bindings/java/native/decentdb_jni.c:167-198 | lower case, no leading zeros, exactly the leftmost longest run left out |
| Ipv6Text.RenderedUnique | bindings/java/native/decentdb_jni.c:167-198 | the rendered text is the one text keeping these rules that expands to the address |
| Options.StripMode | bindings/java/native/decentdb_jni.c:275-309 | the loops over a buffer of input length plus one never write outside it and return the kept tokens joined by `;`, or nothing |
| Options.StrippedTokens | bindings/java/native/decentdb_jni.c:275-309 | the tokens of the result are exactly the input's tokens not starting with `mode=`, in order; nothing is returned exactly when none remain |
| Options.StrippedIdempotent | bindings/java/native/decentdb_jni.c:275-309 | stripping twice is stripping once |
| OptionsText.TokensEquations | bindings/java/native/decentdb_jni.c:283-294 | three equations with the seven separators spelled out, which determine the tokenizer |
| OptionsText.KeptEquations | bindings/java/native/decentdb_jni.c:295-296 | exactly the tokens that start with `mode=` are taken out |
| OptionsText.StrippedUnique | bindings/java/native/decentdb_jni.c:275-309 | the result is the one text of entries separated by single semicolons whose tokens are the kept ones |
| RowCache.StepCoherent | bindings/java/native/decentdb_jni.c:549-1254 | every entry point keeps the cached row equal to the row its statement stands on, except a `bindFloat64` to that statement |
| RowCache.ReadsAgree | bindings/java/native/decentdb_jni.c:1214-1227 | getters agree with uncached reads of every live statement exactly when the cache is coherent |
| RowCache.RunCoherent | bindings/java/native/decentdb_jni.c:549-1254 | over whole runs, coherence throughout holds exactly when no `bindFloat64` hits the cached statement |
| RowCache.CacheTransparent | bindings/java/native/decentdb_jni.c:549-1254 | from the start, with handles reused after finalize, every getter of such a run reads what an uncached call would report |
| RowCache.StaleAfterFloat | bindings/java/native/decentdb_jni.c:733-742 | a run in which a getter after `bindFloat64` reads a dropped row |
| RowCache.Bridge.ClearRowCacheForStmt | bindings/java/native/decentdb_jni.c:61-65 | drops the cached row of that statement and leaves any other |
| RowCache.Bridge.DbOpenOrClose | bindings/java/native/decentdb_jni.c:312-366 | opening or closing empties the cache, a refused call leaves it |
| RowCache.Bridge.StmtPrepare | bindings/java/native/decentdb_jni.c:549-571 | a new statement or none, an empty cache unless the call is refused, and the return code |
| RowCache.Bridge.StmtStep | bindings/java/native/decentdb_jni.c:574-588 | the whole state and the return code after a plain step |
| RowCache.Bridge.StmtStepRowView | bindings/java/native/decentdb_jni.c:591-614 | the whole state and the return code after a step that caches the row it reaches |
| RowCache.Bridge.StmtBindStepRowView | bindings/java/native/decentdb_jni.c:617-647 | the whole state and the return code after binding and stepping in one call |
| RowCache.Bridge.StmtInvalidate | bindings/java/native/decentdb_jni.c:650-679 | the whole state after reset or clearing the bindings |
| RowCache.Bridge.BindValue | bindings/java/native/decentdb_jni.c:709-730 | the whole state after a bind that drops the cached row |
| RowCache.Bridge.BindFloat | bindings/java/native/decentdb_jni.c:733-742 | the whole state after the bind that does not |
| RowCache.Bridge.SetOutAffected | bindings/java/native/decentdb_jni.c:827-835 | the count is stored and the call succeeds exactly when the caller left room for it |
| RowCache.Bridge.StmtExecuteBatch | bindings/java/native/decentdb_jni.c:837-1116 | the whole state, the return code and the stored count after a batch: refused and empty batches touch nothing, a failed one only the cache, a successful one leaves the statement without a result |
| RowCache.Bridge.StmtRebindExecute | bindings/java/native/decentdb_jni.c:1118-1184 | the whole state, the return code and the stored count after a rebind, which leaves the statement with its new result |
| RowCache.Bridge.StmtRowsAffected | bindings/java/native/decentdb_jni.c:693-707 | the count of the statement's result; the cache and every other statement stay |
| RowCache.Bridge.ColCount | bindings/java/native/decentdb_jni.c:1229-1240 | the number of columns of the statement's result, which may have to run for it |
| RowCache.Bridge.ColName | bindings/java/native/decentdb_jni.c:1242-1254 | the name of a column, exactly when the result has that column and the name has no zero byte |
| RowCache.Bridge.StmtFinalize | bindings/java/native/decentdb_jni.c:682-691 | the statement is gone and its cached row with it |
| RowCache.Bridge.RowViewAt | bindings/java/native/decentdb_jni.c:1214-1227 | the cell read through the cache, the index check, and the state afterwards |
| RowCursor.StepsVisitRows | bindings/java/native/decentdb_jni.c:574-614 | steps show the rows of one execution, each once and in order, then none, with the matching return codes |
| RowCursor.FailedStep | bindings/java/native/decentdb_jni.c:574-614 | a failed execution leaves the statement as it was and is reported |
| RowCursor.StartedOver | bindings/java/native/decentdb_jni.c:549-866 | after preparing, resetting, binding or a batch the steps show a new execution from its first row |
| RowCursor.ReboundSteps | bindings/java/native/decentdb_jni.c:1118-1184 | after a rebind the steps show the rows of its execution |
| RowCursor.BoundStep | bindings/java/native/decentdb_jni.c:617-647 | binding and stepping in one call reaches the first row of the new execution |
| RowCursor.ReadsStay | bindings/java/native/decentdb_jni.c:1214-1254 | reading a statement that has its result moves nothing |
| RowCursor.AskingRuns | bindings/java/native/decentdb_jni.c:1214-1254 | asking a statement without a result runs it and stays before the first row |
| RowCursor.RefusedKeeps | bindings/java/native/decentdb_jni.c:549-1254 | refused calls change no statement |
| RowCursor.OthersKept | bindings/java/native/decentdb_jni.c:549-1254 | a call touches one statement at most |
| RowCursor.Lifetimes | bindings/java/native/decentdb_jni.c:549-691 | statements come with prepare and go with finalize |
| RowCursor.StepCaches | bindings/java/native/decentdb_jni.c:591-647 | a step that reports a row leaves it in the cache |
| RowCursor.MissClears | bindings/java/native/decentdb_jni.c:591-647 | a step that reaches none, or is refused, leaves no row of the statement in the cache |
| RowCursor.GetCaches | bindings/java/native/decentdb_jni.c:1214-1227 | a getter caches the row it had to fetch |
| RowCursor.ClearsItsRow | bindings/java/native/decentdb_jni.c:312-866 | which calls drop the row of their statement, which empty the cache, and which leave it |
| RowCursor.ReportedCount | bindings/java/native/decentdb_jni.c:827-835 | counts below 2^63 reach the caller unchanged |
| Decimals.FitDecides | bindings/go/decentdb-go/decimal.go:121-138 | the normalising loop succeeds exactly when some 64-bit coefficient and scale of 0 to 255 denote the number, and finds the largest such scale up to that of the text |
| Decimals.ReadDecides | bindings/go/decentdb-go/decimal.go:85-120 | the scanner accepts exactly the decimal grammar and reads the number the text denotes |
| Decimals.ParseDecides | bindings/go/decentdb-go/decimal.go:85-139 | parsing succeeds exactly on well-formed text whose number some decimal denotes exactly |
| Decimals.ParseExact | bindings/go/decentdb-go/decimal.go:85-139 | the parsed decimal denotes the text exactly, with the largest fitting scale |
| Decimals.DecimalRoundTrip | bindings/go/decentdb-go/decimal.go:25-42 | printing and parsing gives back coefficient and scale, the least coefficient included |
| Decimals.ParseIdempotent | bindings/go/decentdb-go/decimal.go:25-139 | parse, print, parse is parse |
| Decimals.ParseDecimalText | bindings/go/decentdb-go/decimal.go:85-139 | the loop with its truncating division terminates and computes the parse function |
| Decimals.Destination.Scan | bindings/go/decentdb-go/decimal.go:57-83 | success stores the scanned valid decimal, failure leaves the receiver unchanged |
| DecimalText.PrintedCanonical | bindings/go/decentdb-go/decimal.go:25-42 | a minus sign exactly for negative coefficients, a point exactly with a positive scale and that many digits after it, no needless zero in front |
| DecimalText.PrintedUnique | bindings/go/decentdb-go/decimal.go:25-42 | the printed text is the one canonical text that parses back to the decimal; an invalid scale prints a fixed marker |
| DecimalText.Alphabet | bindings/go/decentdb-go/decimal.go:85-120 | the digits, exponent markers and white space of the grammar, spelled out |
| DecimalText.ScanPrinted | bindings/go/decentdb-go/decimal.go:57-83 | printed decimals are scanned back from text and bytes, integers as their own numerals, invalid decimals and other values not at all |
| Gate.BestTarget | scripts/agg_rust_baseline.py:758-773 | the best eligible historical value, or nothing when there is none |
| Gate.LeadsBest | scripts/agg_rust_baseline.py:824-827 | leading the best target is leading every historical run |
| Gate.MedianIsMajority | scripts/agg_rust_baseline.py:817-827 | for an odd number of trials the median leads exactly when a majority of trials lead |
| Gate.MedianOfEven | scripts/agg_rust_baseline.py:817-827 | for an even number a majority makes the median lead, and a leading median means at least half lead |
| Gate.MedianIsMean | scripts/agg_rust_baseline.py:817-821 | with an even number the median is the mean of the two middle values, each told by the number of values it leads and trails |
| Gate.Gate | scripts/agg_rust_baseline.py:871-903 | the accumulated verdict of each cohort is that every metric passes |
| Gate.CohortPasses | scripts/agg_rust_baseline.py:887-903 | one metric against one target: completeness, median and counted leaders |
| Gate.LeaderCountDecides | scripts/agg_rust_baseline.py:882-903 | with an odd number of trials and a majority required the median test is redundant |
| Gate.FinalGate | scripts/agg_rust_baseline.py:90-92 | with nine trials a metric passes exactly with five leaders, or seven on a critical metric |
| Gate.PresentIs | scripts/agg_rust_baseline.py:817-821 | a metric is complete exactly when every trial has a value, and then its values are those of the trials in order |
| Gate.CriticalPasses | scripts/agg_rust_baseline.py:900-903 | a critical metric passes exactly when it would as an ordinary one and the critical number of trials leads |
| Gate.OrdinaryPasses | scripts/agg_rust_baseline.py:900-903 | an ordinary metric ignores the critical number |
| Gate.MedianMatters | scripts/agg_rust_baseline.py:898-903 | four trials with two leaders pass or fail by the median alone |
| TrialMatrix.Validate | scripts/agg_rust_baseline.py:1113-1230 | acceptance is exactly: expected directories, every run in its cell with its database, no cell or database twice, no cell empty, one engine version, equal evidence per scale |
| TrialMatrix.Place | scripts/agg_rust_baseline.py:1131-1170 | the dictionary and the sets decide the checks on the runs and index them |
| TrialMatrix.SameEvidence | scripts/agg_rust_baseline.py:1216-1232 | comparing each trial with the first decides pairwise equality of evidence |
| TrialMatrix.AcceptedBijection | scripts/agg_rust_baseline.py:1113-1232 | accepted runs are in bijection with trials and scales, and there are exactly as many |
| MatrixExact.AcceptsExactly | scripts/agg_rust_baseline.py:1113-1232 | acceptance is exactly one run for every trial number and scale, in the two-digit directory and with the database of that trial and scale, one engine, equal evidence per scale |
| ProcFile.ReadProcFile | benchmarks/rust-baseline/src/main.rs:1364-1392 | under every schedule of short, interrupted and failed reads a nonzero length means the buffer holds the entire file; without failures every file that fits is read |
| ProcFile.ParseAsciiDecides | benchmarks/rust-baseline/src/main.rs:1333-1343 | parsing succeeds exactly on nonempty digit strings below 2^64, with their value |

## Left out

- The storage engine, its SQL and its write-ahead log; of the C interface only the statement cursor that the row cache depends on is modelled.
- JNI marshalling, memory allocation failures and status-code mapping; `parse_open_mode` and the opening of databases.
- The remaining value formatters (interval, CIDR, MAC address, enum, IPv4): single format strings.
- `unix_utc_parts` and the two label formatters built on it, `parse_statm_resident_pages` and `parse_status_kb`: only easy members.
- SHA-256 itself; the hash is a parameter.
- The JSON fields the checker adds to the evidence besides its verdict and the checksum, and the wording of errors.
- Latency statistics, reports, charts and the other database drivers.
- SeedPlan.Walk: counters are unbounded, so the model does not capture the 64-bit overflow of the song counter, which needs more than 2^63 - 2^32 songs; `CounterFits` rules it out for every scale whose cap, or whose largest possible number of songs, leaves room for one more draw.
- Queries.Validate: double rounding is not modelled; averages and their tolerance are real numbers.
- Gate.BestTarget: the file a target comes from is not modelled, and which runs are eligible is decided before the call.
- TrialMatrix.Validate: the optional environment manifest and the final scan of the directories for stray files are not modelled; the query evidence of a run is one value.
- Decimals.Destination.Scan: a nil receiver is not modelled.
- RowCache.CacheTransparent: one thread; calling an entry point with a handle that was never prepared or already finalized, or binding a negative parameter number, is outside the model.
