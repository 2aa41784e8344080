# Advent-of-code HTTP handlers, modelled in Dafny

The system is a web service with one set of HTTP handlers per puzzle
day. This project models the sequential logic of nine of those days.

- **Day 1**: the XOR-cube of the packet ids in a path.
- **Day 4**: the reindeer strength sum and the contest winners.
- **Day 5**: list pagination.
- **Day 6**: the elf counter.
- **Day 7**: the cookie recipe and the pantry.
- **Day 12**: the packet stopwatch and the ULID statistics.
- **Day 15**: the password rule checkers.
- **Day 19**: the ping gate and the chat-room relay.
- **Day 22**: the gift integers and the star-map portal search.

The model follows an optimised (release) Rust build:

- Fixed-width `+`, `-`, `*` and `pow` wrap around (`Ints.Wrap32`, `Ints.Wrap64`, `Ints.WrapU64`).
- `str::parse` checks the range.
- `/` truncates toward zero (`Ints.TruncDiv`).
- `len()` counts UTF-8 bytes (`Text.Utf8Len`).
- Every `unwrap` or slice that can fail becomes an explicit `Panic`/`None` outcome rather than a precondition.

Code that works by updating state step by step is modelled as imperative Dafny, and each such method is proved against a specification function:

- The day-19 `SharedState` is a class (`Relay.SharedState`), and its receive loops are methods.
- The day-12 stopwatch map is a class (`Packets.Stopwatch`).
- The accumulator loops of days 1, 4, 6, 7, 12, 15 and 22 are methods with loop invariants.

Code made of expressions is modelled as functions, for example pagination, the rule predicates and the portal filter.

Files:

| file | contents |
|---|---|
| `wrappers.dfy` | `Option` and `Outcome` (a value or a panic) |
| `ints.dfy` | fixed-width wrap-around and truncating division |
| `decimal.dfy` | integer `parse` and `to_string` |
| `text.dfy` | `split`, `lines`, UTF-8 length and bytes, character counting and filtering |
| `sorting.dfy` | `sort` and `reverse` on integer sequences |
| `recalibrate.dfy` | day 1 |
| `contest.dfy` | day 4 |
| `pagination.dfy` | day 5 |
| `elves.dfy` | day 6 |
| `cookies.dfy` | day 7 |
| `packets.dfy` | day 12 |
| `passwords.dfy` | day 15 |
| `relay.dfy` | day 19 |
| `rocket.dfy` | day 22 |

## Model

| member | source | states |
|---|---|---|
| Ints.Wrap32 | src/day4/mod.rs:93 | an `i32` addition that leaves the range wraps to the congruent value modulo 2^32; an in-range result is unchanged |
| Ints.Wrap64 | src/day22/mod.rs:8-18 | the `i64` sum wraps to the congruent value modulo 2^64; an in-range result is unchanged |
| Ints.Wrap32Add | src/day4/mod.rs:91-94 | wrapping after every step of a sum equals wrapping once at the end |
| Ints.TruncDiv | src/day7/mod.rs:61 | `i64` division truncates toward zero: for a non-negative stock the quotient q satisfies q·b ≤ a < q·b + b, and for a negative one q ≤ 0 and q·b − b < a ≤ q·b |
| Decimal.ParseInteger | src/day1/mod.rs:7 | `parse` succeeds only on non-empty text and only with a value inside the target type's range |
| Decimal.ParseIntToString | src/day4/mod.rs:95 | parsing the decimal text of an in-range integer gives that integer back |
| Decimal.ParseNatToString | src/day19/mod.rs:100-105 | parsing the decimal text of a counter gives the counter back |
| Decimal.ParseDigits | src/day15/mod.rs:111 | a run of ASCII digits parses exactly when its value is within range |
| Text.Split | src/day1/mod.rs:4 | `split('/')` yields at least one piece, and no piece holds the separator |
| Text.JoinSplit | src/day1/mod.rs:4 | joining the pieces of a split with the separator gives the text back |
| Text.SplitJoin | src/day1/mod.rs:4 | splitting the join of separator-free pieces gives the pieces back |
| Text.Lines | src/day22/mod.rs:6 | `lines()` yields pieces without line feeds; a piece that ended in "\r\n" loses the "\r", and a final line feed starts no empty line |
| Text.LinesPlain | src/day22/mod.rs:75 | for text without carriage returns and without a final line feed, the lines joined with line feeds are the text |
| Text.Utf8LenBounds | src/day15/mod.rs:88 | the byte length lies between the character count and four times it, and equals the character count exactly for ASCII text |
| Text.Encode | src/day6/mod.rs:15-17 | the UTF-8 bytes of a text number exactly its byte length |
| Text.CountCharsPositions | src/day15/mod.rs:99 | `filter(p).count()` is the number of positions whose character satisfies p |
| Text.AnyCharCount | src/day15/mod.rs:92-94 | `any(p)` holds exactly when the filtered count is positive |
| Text.ContainsPairSubstring | src/day15/mod.rs:51-54 | containing a two-character pattern means the text is some u + pattern + v |
| Text.FilterChars | src/day15/mod.rs:120-126 | the filtered string has the counted length and only matching characters |
| Text.FilterCharsAppend | src/day15/mod.rs:120-126 | filtering distributes over concatenation |
| Sorting.Sort | src/day22/mod.rs:7 | `sort()` gives an ascending permutation of its input |
| Sorting.SortedUnique | src/day22/mod.rs:7 | two ascending permutations of the same multiset are equal, so the sort result is unique |
| Sorting.Reverse | src/day12/mod.rs:65 | `reverse()` puts element k at position len−1−k |
| Sorting.SortThenReverse | src/day12/mod.rs:64-65 | sorting and then reversing gives a descending permutation |
| Recalibrate.XorLaws | src/day1/mod.rs:11 | `^` on `i32` is commutative and associative, has 0 as identity and cancels itself |
| Recalibrate.FoldAppend | src/day1/mod.rs:11 | the XOR fold of a concatenation is the XOR of the two folds |
| Recalibrate.FoldPermutation | src/day1/mod.rs:11 | the XOR fold depends only on the multiset of ids, not on their order |
| Recalibrate.Ids | src/day1/mod.rs:6-10 | the kept ids are never more than the segments |
| Recalibrate.IdsAppend | src/day1/mod.rs:6-10 | the ids of two segment lists are the ids of each, in order |
| Recalibrate.RecalibratePacketIds | src/day1/mod.rs:3-13 | the loop collects exactly the segments that parse as `i32`, and the answer is the decimal text of the wrapped cube of their XOR |
| Recalibrate.NoIdsZero | src/day1/mod.rs:11 | a path in which no segment parses gives 0 |
| Recalibrate.SwapSegments | src/day1/mod.rs:4-11 | swapping two blocks of segments does not change the answer |
| Recalibrate.SingleAndPair | src/day1/mod.rs:11 | a single id folds to itself, and an id that occurs twice cancels |
| Contest.CalculateStrength | src/day4/mod.rs:90-96 | the text is the decimal of the strength sum wrapped to `i32` |
| Contest.StrengthExact | src/day4/mod.rs:90-96 | a sum that fits in `i32` is reported exactly, and its text parses back to it |
| Contest.SumAppend | src/day4/mod.rs:92-94 | the strength sum of two teams is the sum of their sums |
| Contest.IntKeyOrder | src/day4/mod.rs:50 | comparing `Option<i32>` keys: `None` is below every `Some`, and two `Some` compare by value |
| Contest.FirstMax | src/day4/mod.rs:35-40 | an empty list has no winner; otherwise no reindeer has a greater key than the winner, and the winner's key is strictly greater than that of every reindeer before it, so the first of equal maxima wins |
| Contest.FirstMaxUnique | src/day4/mod.rs:35-40 | at most one index is the first greatest |
| Contest.PresentBeatsMissing | src/day4/mod.rs:37 | the winner lacks the attribute only if every reindeer lacks it |
| Contest.GetFastest | src/day4/mod.rs:34-45 | panics exactly on an empty list; otherwise names the first fastest reindeer and its strength |
| Contest.GetTallest | src/day4/mod.rs:47-59 | panics on an empty list, or when the first tallest lacks an antler width; otherwise gives its message |
| Contest.GetMagician | src/day4/mod.rs:61-73 | panics exactly when no reindeer has a snow magic power; otherwise names the first strongest magician |
| Contest.GetConsumer | src/day4/mod.rs:75-87 | panics on an empty list, or when the first greatest candy eater lacks a favourite food |
| Contest.GetContestResults | src/day4/mod.rs:26-33 | the four messages come from the four first winners, and the call panics exactly when one of the three unwraps fails or the list is empty |
| Contest.UniqueWinners | src/day4/mod.rs:26-33 | every category of a non-empty team has exactly one winner |
| Pagination.Window | src/day5/mod.rs:34-39 | skip-then-take yields min(limit, max(0, len − offset)) names, which are the names at offset, offset+1, … in order |
| Pagination.ConcatChunks | src/day5/mod.rs:28-30 | the chunks concatenated give the list back |
| Pagination.ChunkSizes | src/day5/mod.rs:28-30 | every chunk but the last has exactly `split` names, the last is non-empty and at most `split`, and there are no chunks only for an empty list |
| Pagination.Paginate | src/day5/mod.rs:11-44 | the request panics exactly when `split` is 0 |
| Pagination.DefaultsKeepAll | src/day5/mod.rs:12-19 | without offset, limit and split, the whole list comes back unsplit |
| Pagination.SplitKeepsNames | src/day5/mod.rs:20-42 | with a positive split, the chunks concatenate to the unsplit result of the same query |
| Elves.MatchCount | src/day6/mod.rs:16-20 | the occurrences among the first k start indices are at most k |
| Elves.CountOccurrences | src/day6/mod.rs:13-23 | the loop counts the start indices 0..=h−n where the needle occurs, overlaps included, only when the haystack is strictly longer; a start inside a multi-byte character panics |
| Elves.OccurrencesBound | src/day6/mod.rs:15-16 | the count is at most h − n + 1, and 0 when the haystack is not longer than the needle |
| Elves.WholeTextNotCounted | src/day6/mod.rs:15 | a text that is exactly the needle contains it but counts 0 |
| Elves.InfixCountsMore | src/day6/mod.rs:27-29 | a needle never occurs more often than any of its infixes, and counting it panics only if counting the infix does |
| Elves.MatchCountMonotone | src/day6/mod.rs:16-20 | trying more start indices never lowers the count |
| Elves.AsciiNeverPanics | src/day6/mod.rs:17 | on ASCII text the slicing never panics |
| Elves.CountElves | src/day6/mod.rs:26-36 | the three fields are the "elf" count, the "elf on a shelf" count and the "shelf" count minus the latter, and the request panics exactly when counting "elf" or "shelf" does |
| Elves.ElfCountsOrdered | src/day6/mod.rs:27-30 | "elf on a shelf" is counted no more often than "elf" or "shelf", so the subtraction never underflows |
| Cookies.StripRecipe | src/day7/mod.rs:11 | succeeds exactly on input starting with "recipe=", returning what follows it, and panics otherwise |
| Cookies.StripRecipeInverse | src/day7/mod.rs:11 | stripping the prefix from "recipe=" + s gives s |
| Cookies.Limits | src/day7/mod.rs:59-60 | the limiting ingredients are exactly the recipe entries with a positive amount |
| Cookies.Min | src/day7/mod.rs:64 | `min()` is `None` only for an empty list; otherwise it is an element no larger than any other |
| Cookies.MaxCookies | src/day7/mod.rs:58-64 | the result is the least truncated quotient of stock (0 when absent) by amount over the limiting ingredients, or 0 when there are none |
| Cookies.MaxCookiesUnique | src/day7/mod.rs:58-64 | the maximum count is uniquely determined |
| Cookies.NonPositiveIgnored | src/day7/mod.rs:60 | an ingredient with a zero or negative amount changes nothing, as if absent from the recipe |
| Cookies.Baked | src/day7/mod.rs:40-51 | the new pantry has exactly the old pantry's keys, and ingredients outside the recipe keep their amounts |
| Cookies.UseWrapped | src/day7/mod.rs:45 | wrapping the product before the subtraction gives the same `i64` amount |
| Cookies.Bake | src/day7/mod.rs:40-51 | the loop of `and_modify` calls gives `cookies` = n and the pantry of `Baked` |
| Cookies.BakeNothing | src/day7/mod.rs:40-51 | baking 0 cookies leaves the pantry unchanged |
| Cookies.BakeMaxLeavesStock | src/day7/mod.rs:58-65 | with a pantry of non-negative amounts, baking the maximum leaves each limiting ingredient at amount − quantity·max ≥ 0, with no wrap-around |
| Cookies.QuotientNonNegative | src/day7/mod.rs:61 | a non-negative stock allows a non-negative count |
| Cookies.LimitLeavesStock | src/day7/mod.rs:45 | using m ≤ stock / amount times the amount neither wraps nor goes below zero |
| Cookies.BakeRecipe | src/day7/mod.rs:55-65 | the handler bakes exactly the maximum count |
| Packets.Stopwatch.constructor | src/day12/mod.rs:126-128 | the stopwatch map starts empty |
| Packets.Stopwatch.Save | src/day12/mod.rs:28-40 | inserts or overwrites this id's time, and leaves every other id as it was |
| Packets.Stopwatch.Load | src/day12/mod.rs:42-53 | answers the decimal elapsed whole seconds, "0" for an unknown id, and an error when the clock reads earlier than the save |
| Packets.SaveThenLoad | src/day12/mod.rs:42-53 | after a save, loading s seconds and some nanoseconds later gives s; an earlier clock gives an error; an unknown id gives 0 |
| Packets.SaveIsolated | src/day12/mod.rs:32-38 | saving one id never changes what another id loads |
| Packets.Valid | src/day12/mod.rs:56-59 | the kept ULIDs are exactly the ones that parsed |
| Packets.Ulids | src/day12/mod.rs:55-67 | the answer is a descending permutation of the valid ULIDs' values |
| Packets.UlidsUnique | src/day12/mod.rs:60-66 | any descending arrangement of the valid values is the answer |
| Packets.TwoDigitsText | src/day12/mod.rs:96-99 | comparing the zero-padded day or month with "24" or "12" compares the numbers |
| Packets.CivilDate19715 | src/day12/mod.rs:95-98 | day 19715 after the epoch is 24 December, a Sunday |
| Packets.ChristmasEve2023 | src/day12/mod.rs:95-101 | a ULID stamped on 24 December 2023 counts as Christmas Eve and falls on a Sunday |
| Packets.TargetDays | src/day12/mod.rs:102-109 | a request w below 6 counts weekday w+1; 6 counts Sunday; 7 up to usize::MAX − 1 counts nothing; usize::MAX wraps to Sunday |
| Packets.CountIf | src/day12/mod.rs:94-116 | each counter is at most the number of ULIDs |
| Packets.CountRest | src/day12/mod.rs:102-115 | one ULID adds one to each counter whose condition it meets, and leaves the others |
| Packets.Tally | src/day12/mod.rs:94-116 | the `for_each` panics exactly when there is some ULID and the weekday does not parse; otherwise the counters count Christmas Eve, the target weekday, future timestamps and odd values |
| Packets.UlidsWeekday | src/day12/mod.rs:80-118 | the same counters, over the ULIDs that parsed |
| Packets.CountersBounded | src/day12/mod.rs:88-116 | every counter is at most the number of valid ULIDs |
| Passwords.ThreeVowelsPositions | src/day15/mod.rs:22-31 | `contains_three_vowels` holds exactly when at least three positions hold a, e, i, o or u |
| Passwords.OneLetterTwice | src/day15/mod.rs:33-48 | the peeking loop returns true exactly when some alphabetic character is immediately followed by itself |
| Passwords.ContainsSubstringsIff | src/day15/mod.rs:50-56 | holds exactly when the input is u + "ab" + v, u + "cd" + v, u + "pq" + v or u + "xy" + v |
| Passwords.IsNiceFirstFailure | src/day15/mod.rs:58-68 | nice exactly when all three checks pass; otherwise the reported failure fails and every earlier check passes |
| Passwords.NiceResponse | src/day15/mod.rs:70-85 | status 200 with "nice" exactly when `is_nice` is Ok, otherwise "naughty" |
| Passwords.Rule1Bytes | src/day15/mod.rs:87-89 | rule 1 counts bytes: 8 characters always suffice, fewer than 2 never do, and for ASCII it means 8 characters |
| Passwords.Rule2Counts | src/day15/mod.rs:91-96 | rule 2 holds exactly when an ASCII lowercase letter, an uppercase letter and a digit each occur |
| Passwords.Rule3Positions | src/day15/mod.rs:98-101 | rule 3 holds exactly when at least five positions are numeric |
| Passwords.ScanRuns | src/day15/mod.rs:106-114 | the pending run holds only digits and is empty exactly when the input is empty or ends in a non-digit |
| Passwords.CheckRule4 | src/day15/mod.rs:103-117 | the loop computes the rule-4 outcome: the wrapped `i32` sum of the completed digit runs compared with 2023, or a panic when a run exceeds `i32` |
| Passwords.ScanPanicStays | src/day15/mod.rs:111 | once a run fails to parse, the whole rule panics |
| Passwords.AppendDigits | src/day15/mod.rs:107-110 | digits appended at the end only extend the pending run, so a trailing run is never added to the sum |
| Passwords.CloseRun | src/day15/mod.rs:110-113 | a non-digit after a run adds the run's value to the list or panics when it exceeds `i32`; after no run it changes nothing |
| Passwords.Rule5Count | src/day15/mod.rs:119-128 | when rule 5 holds, exactly three characters are j, o or y |
| Passwords.Rule5Shape | src/day15/mod.rs:119-128 | any text of the form u + "j" + v + "o" + w + "y" + x, with no j, o or y elsewhere, satisfies rule 5 |
| Passwords.ValidWhenAllPass | src/day15/mod.rs:151-173 | `is_valid` is Ok exactly when all nine rules pass |
| Passwords.FailureIsFirst | src/day15/mod.rs:151-173 | the reported rule fails with its own reason and every lower-numbered rule passes; the check panics exactly when rules 1 to 3 pass and rule 4 panics |
| Passwords.Game | src/day15/mod.rs:175-233 | panics exactly when `is_valid` does; status 200 exactly for a valid password; the result is "nice" or "naughty" accordingly |
| Passwords.GameStatusOfRule | src/day15/mod.rs:184-225 | a failing rule n is answered with its status and reason: 400 for rules 1 to 4, then 406, 451, 416, 426 and 418 |
| Relay.GateStep | src/day19/mod.rs:39-87 | "serve" sets the flag; "ping" replies one "pong" exactly when the flag is set; only Close breaks; nothing else changes the flag |
| Relay.ServeIdempotent | src/day19/mod.rs:48-53 | a second "serve" changes nothing |
| Relay.RunGate | src/day19/mod.rs:26-37 | the socket loop handles at most the frames it receives, and never clears the flag |
| Relay.NoServeNoPong | src/day19/mod.rs:48-66 | a session that never receives "serve" on a closed gate sends no pong and leaves the gate closed |
| Relay.OpenGateAnswersEveryPing | src/day19/mod.rs:26-66 | with the gate open, every "ping" handled gets exactly one "pong" |
| Relay.SharedState.constructor | src/day19/mod.rs:237-241 | the state starts with the gate closed, the counter at 0 and no rooms |
| Relay.SharedState.HandleMessage | src/day19/mod.rs:39-87 | the flag, the flow and the reply are those of `GateStep` |
| Relay.SharedState.HandleSocket | src/day19/mod.rs:26-37 | the loop leaves the flag and sends the replies that `RunGate` gives |
| Relay.SharedState.Reset | src/day19/mod.rs:96-98 | the counter becomes 0 |
| Relay.SharedState.Views | src/day19/mod.rs:100-105 | returns the counter's decimal text, which parses back to it |
| Relay.CreateRoom | src/day19/mod.rs:112-115 | adds a fresh room holding "{}" only when the id is absent; existing rooms are never replaced |
| Relay.SharedState.Room | src/day19/mod.rs:107-117 | the registry becomes `CreateRoom` of the old one |
| Relay.SharedState.Subscribe | src/day19/mod.rs:127-133 | the room gains one receiver, which has seen the current version |
| Relay.SharedState.Unsubscribe | src/day19/mod.rs:161-164 | the room loses the session's receiver when both tasks end |
| Relay.Observe | src/day19/mod.rs:136-137 | a receiver sees a value exactly when the version moved since it last looked, and then sees the latest value |
| Relay.SharedState.Poll | src/day19/mod.rs:136-137 | the receiver gets the room's latest value exactly when the version changed, and catches up to it |
| Relay.ChatStep | src/day19/mod.rs:167-229 | a text without a string "message" panics; one with a "user" key or over 128 bytes is dropped; otherwise {user, message} becomes the room's value and the counter grows by the receiver count, or the session breaks when there is no receiver; Close breaks and other frames continue |
| Relay.SharedState.ProcessChatMessage | src/day19/mod.rs:167-229 | the counter, the rooms and the flow are those of `ChatStep` |
| Relay.RoomIsolation | src/day19/mod.rs:188-196 | publishing in one room changes nothing another room's receivers see |
| Relay.FanOut | src/day19/mod.rs:188-196 | after a publish, every receiver of the room sees the new message |
| Relay.Coalescing | src/day19/mod.rs:135-137 | a receiver that misses two publishes sees only the second |
| Relay.RunChat | src/day19/mod.rs:147-159 | the receive loop handles at most the frames it receives and keeps the set of rooms |
| Relay.SharedState.ReceiveLoop | src/day19/mod.rs:147-159 | the counter and the rooms after the loop are those of `RunChat` |
| Relay.RunChatCount | src/day19/mod.rs:197-206 | the counter grows by the receiver count times the number of published messages, wrapping as a `usize` |
| Relay.CounterAfterReset | src/day19/mod.rs:96-98 | after a reset, a session that does not overflow the counter leaves exactly receivers × published |
| Relay.RunChatRooms | src/day19/mod.rs:147-159 | a session changes no other room and keeps its own receiver count |
| Relay.Joined | src/day19/mod.rs:112-133 | after `room` and the subscription, the room exists and has a receiver |
| Relay.SharedState.ChatSession | src/day19/mod.rs:119-165 | a session leaves the counter and, with its receiver released, the rooms of `RunChat` over the joined registry |
| Relay.SessionBreaksOnlyOnClose | src/day19/mod.rs:188-222 | while the session's own receiver is subscribed, only a Close frame breaks it |
| Rocket.ParsedLines | src/day22/mod.rs:6 | only lines that parse as `u64` are kept, so there are at most as many numbers as lines, each in the `u64` range |
| Rocket.ParsedLinesAppend | src/day22/mod.rs:6 | the numbers of two blocks of lines are those of each, in order |
| Rocket.ParsedLinesMember | src/day22/mod.rs:6 | a value is kept exactly when some line parses to it |
| Rocket.Numbers | src/day22/mod.rs:6-7 | the sorted numbers are an ascending permutation of the parsed lines |
| Rocket.WrappingAltSumExact | src/day22/mod.rs:8-18 | the wrapping `i64` alternating sum equals the exact alternating sum wrapped once |
| Rocket.AltSumSorted | src/day22/mod.rs:7-18 | for ascending numbers the alternating sum lies between the first and the last for an odd count, and between first − last and 0 for an even count |
| Rocket.RepeatBytes | src/day22/mod.rs:19-20 | k repetitions take k times the bytes |
| Rocket.GiftBytes | src/day22/mod.rs:19 | the gift emoji takes four bytes |
| Rocket.GiftsExact | src/day22/mod.rs:18-20 | the output repeats the gift k = (sum mod 2^64) times, and panics with a capacity overflow exactly when the 4·k bytes exceed `isize::MAX` (2^63 − 1) |
| Rocket.IntegersCount | src/day22/mod.rs:5-21 | `integers` repeats the gift (alternating sum of the sorted numbers mod 2^64) times, or panics on capacity overflow exactly when four bytes per gift exceed `isize::MAX` |
| Rocket.IntegersOdd | src/day22/mod.rs:5-21 | for an odd count the value is the exact non-negative alternating sum n, and the answer is n gifts unless 4·n exceeds `isize::MAX`, when it panics |
| Rocket.IntegersEven | src/day22/mod.rs:5-21 | for an even count the sum n is not positive: 0 gives an empty answer, and a negative n gives 2^64 + n gifts, which panics only when 4·(2^64 + n) exceeds `isize::MAX` |
| Rocket.SortedGiftsOdd | src/day22/mod.rs:7-20 | the same for any ascending list of `u64` values of odd length |
| Rocket.SortedGiftsEven | src/day22/mod.rs:7-20 | the same for any ascending list of `u64` values of even length |
| Rocket.GiftsCapacity | src/day22/mod.rs:20 | 2^61 gifts (2^63 bytes) panic, 2^61 − 1 gifts do not |
| Rocket.NegativeSumOneGift | src/day22/mod.rs:7-20 | the values 0 and `u64::MAX` have a negative alternating sum and still give exactly one gift |
| Rocket.ParseFormatStar | src/day22/mod.rs:39-47 | `Star::from` reads back the three coordinates of "x y z" |
| Rocket.ParseFormatPortal | src/day22/mod.rs:55-65 | `Portal::from` reads back the source and destination of "s d" |
| Rocket.ParseEach | src/day22/mod.rs:78-85 | a block of lines parses only when every line does, giving one value per line in order |
| Rocket.ReadStarMapSound | src/day22/mod.rs:73-88 | a star map read from lines has N on the first line, then N star lines, then M, then M portal lines, in input order |
| Rocket.ReadStarsSound | src/day22/mod.rs:77-85 | after the star count, the N star lines, then M, then the M portal lines, in input order |
| Rocket.ReadPortalsSound | src/day22/mod.rs:81-85 | the portal count line, then exactly that many portal lines in order |
| Rocket.ReadStarMapComplete | src/day22/mod.rs:73-88 | lines laid out that way are always read into exactly that star map |
| Rocket.ReadStarsComplete | src/day22/mod.rs:77-86 | star and portal blocks laid out that way are read into that star map |
| Rocket.ReadPortalsComplete | src/day22/mod.rs:81-86 | a portal block laid out that way is read into those portals |
| Rocket.StarMapFrom | src/day22/mod.rs:73-88 | the parser reads the star map of `ReadStarMap` over the input's lines, or panics (`None`) |
| Rocket.StarMapFromLines | src/day22/mod.rs:75-87 | the two push loops read the same star map |
| Rocket.ReadStarLines | src/day22/mod.rs:77-80 | the star loop panics when fewer than N lines remain, and otherwise parses the next N lines |
| Rocket.ReadPortalLines | src/day22/mod.rs:81-85 | the portal count and block are read as `ReadPortals` does |
| Rocket.ReadPortalBlock | src/day22/mod.rs:82-85 | the portal loop panics when fewer than M lines remain, and otherwise parses the next M lines |
| Rocket.MissingLine | src/day22/mod.rs:79 | one malformed line in a block makes the whole block fail |
| Rocket.LastStarId | src/day22/mod.rs:91-93 | the last star id is count − 1, wrapping to usize::MAX for an empty map |
| Rocket.GetStar | src/day22/mod.rs:95-97 | `None` exactly when the id is not below the number of stars, otherwise that star |
| Rocket.LastStarExists | src/day22/mod.rs:91-97 | the last star id names a star exactly when there is one |
| Rocket.PortalsFromSource | src/day22/mod.rs:99-105 | the filter keeps at most all portals |
| Rocket.PortalsFromSourceMembers | src/day22/mod.rs:99-105 | the result holds exactly the portals leaving the source |
| Rocket.PortalsFromSourceAppend | src/day22/mod.rs:99-105 | the filter keeps the original order |
| Rocket.Pop | src/day22/mod.rs:127 | `pop` drops the last star, and does nothing to an empty path |
| Rocket.FindPath | src/day22/mod.rs:118-130 | the recursive search records, and leaves the path as, `Search` with the source's pop after every portal |
| Rocket.FollowPortals | src/day22/mod.rs:122-128 | the portal loop pushes unvisited destinations, recurses and pops after every portal, as `Follow` does |
| Rocket.FollowSkipped | src/day22/mod.rs:123-127 | a portal whose destination is already on the path is skipped, but the path still loses its last star |
| Rocket.FindAllPaths | src/day22/mod.rs:107-116 | one search per portal leaving star 0, each from the path [0, destination], as `AllPaths` gives |
| Rocket.SearchEndsAtLast | src/day22/mod.rs:118-120 | every path the search records ends at the last star, and earlier records are kept |
| Rocket.FollowEndsAtLast | src/day22/mod.rs:122-128 | the same for the portal loop |
| Rocket.AllPathsEndAtLast | src/day22/mod.rs:107-116 | every path `find_all_paths` returns ends at the last star |
| Rocket.CorrectedSearchSound | src/day22/mod.rs:118-130 | with the pop made conditional on a push, the search restores the path and records only real routes |
| Rocket.CorrectedFollowSound | src/day22/mod.rs:122-128 | the corrected portal loop restores the path and records only real routes |
| Rocket.CorrectedStartEachSound | src/day22/mod.rs:107-116 | the corrected searches from star 0 record only real routes |
| Rocket.CorrectedAllPathsSound | src/day22/mod.rs:107-130 | with the corrected pop, every recorded path is a route along portals that ends at the last star |
| Rocket.PopAfterSkipRecordsNonRoute | src/day22/mod.rs:122-128 | as written, 3 stars with portals 0→1, 1→0, 1→2 record [0, 2], which is not a route |
| Rocket.PopAfterPushRecordsRoute | src/day22/mod.rs:122-128 | with the corrected pop the same map records [0, 1, 2], a route |

## Left out

- Concurrency is not modelled. The tokio tasks, `select!` and `abort`, the `RwLock` and the atomics of day 19 become one sequential state.
  - The two tasks of a chat session become a receive loop followed by the release of the session's receiver.
  - The send task is modelled by `Poll`, one observation of the room's latest value; the delivery loop itself is not modelled.
  - A panic inside a spawned task ends only that task, and `select!` then aborts its sibling. So a malformed chat message ends the session, not the service: `Flow.Panicked` is such an end.
- I/O is not modelled: WebSocket upgrade, socket send and receive, and `println!` logging. A failed send of a "pong" is ignored, as in the source.
- Serde JSON decoding and encoding, and `{:?}` output, are not modelled.
  - Each handler takes the decoded values.
  - A chat text frame is its decoded field map, or `Unparsable`.
  - The broadcast `{user, message}` is a `Chat` value rather than its JSON text.
- The day-7 cookie header and base64 decoding are not modelled; only the "recipe=" prefix check is. A decoded recipe is two maps.
- Day 12 ULID and UUID text are not modelled. ULID text parsing becomes an input of parsed values or `None`. chrono's date rendering becomes a `Date` record, with the usual civil-date arithmetic for the check. `SystemTime::now` is a parameter in nanoseconds. The stopwatch's mutex is not modelled.
- Packets.Counters reads the clock once per request (its `now` parameter). The source calls `SystemTime::now()` again for every ULID (src/day12/mod.rs:110), so a ULID that is only just in the future may be counted differently there.
- Packets.Ulids orders ULID values as numbers. The source sorts the UUID strings, which are fixed-width lowercase hex, so the two orders agree; the text itself is not modelled.
- Day-15 rules 6 to 9 (regex, emoji search, SHA-256) are foreign calls. They become a record of four given booleans (`ForeignRules`).
- `char::is_alphabetic` and `char::is_numeric` are modelled on ASCII letters and digits only. The Unicode tables are not modelled.
- Day-4 speed is an `f32` and is modelled as a real. Rounding and NaN are not modelled, since JSON numbers cannot be NaN.
- Star distances, the `f32` sum and the `{:.3}` formatting of the day-22 `rocket` handler are floating point and are not modelled. The handler's choice of the shortest path and its `unwrap` are left out with them.
- Rocket.FindPath and Rocket.FindAllPaths carry a fuel bound. The source's recursion need not terminate, because the path can shrink below the current star after a skipped portal. Fuel running out is reported as `None`, so the model only speaks about searches that end within the bound.
- Hash-map iteration order is not modelled. The day-7 loops visit the recipe in an arbitrary order, and their results do not depend on it.
- Allocation failure is not modelled.
- Debug-build overflow panics are not modelled. On an empty star map, for instance, the last star id wraps to usize::MAX, as in a release build.
- Day 6 counts over the UTF-8 bytes of the text, as the source's byte slicing does.
- A chat message that cannot be decoded ends that user's session, not the whole service.
- The day-22 gift count wraps: a negative alternating sum n gives 2^64 + n gifts, which panics only when 4·(2^64 + n) bytes exceed `isize::MAX`; the values 0 and `u64::MAX`, for instance, give one gift.

## Findings

| source | as written | input that shows it | evidently intended | confidence | as-written member | corrected member |
|---|---|---|---|---|---|---|
| src/day22/mod.rs:122-128 | `path.pop()` runs after every portal, also after one whose destination was already on the path and so was never pushed | 3 stars (0, 1, 2); portals 0→1, 1→0, 1→2: the skipped portal 1→0 pops star 1, and [0, 2] is recorded although no portal leads from 0 to 2 | pop only after a push, so the path is restored and only routes along portals are recorded ([0, 1, 2] here) | not executed | Rocket.PopAfterSkipRecordsNonRoute | Rocket.PopAfterPushRecordsRoute |
