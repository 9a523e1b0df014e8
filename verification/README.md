# A verified model of the digital garden visitor counter

The repository counts visitors of a web page. Many short-lived invocations share one DynamoDB item
per counter, which holds a count and a CBOR list of recent visitors; each invocation reads the
item, refreshes its visitor or pushes it and increments the count, prunes the list, and puts the
item back on the condition that the count has not changed. The number it gets is then drawn, in
groups of three digits, into a flat RGBA buffer. This project models both halves in Dafny and
proves what they promise.

`dafny verify dfyconfig.toml` checks all of it.

## How the model is built

* `visitors.dfy`, `decimal.dfy`, `cbor.dfy`: times as nanoseconds since the Unix epoch and as 32-bit
  stored seconds, counts as decimal text, the list as CBOR (RFC 8949, sections 3, 3.1 and 4.1).
  Every `expect` that can fire is a `Panic` value, never a precondition.
* `recent.dfy`, `entries.dfy`, `updates.dfy`: the list algorithm as values, the class `CountEntry`
  whose fields the source updates, and what one update keeps, drops and counts. `Plan` is the put an
  invocation issues after reading an item. `panics.dfy` says exactly when there is none, and
  `plans.dfy` what it is, item for item, while the list is not crowded.
* `invocations.dfy`, `store.dfy`: one invocation as the state machine between its awaits, and the
  loop of `maybe_increment_visitors`, proved to take exactly the machine's steps for any answers
  the client gives, and to end as the reports on its puts say. The client, the network, the clock
  and the rivals are the client's script.
* `tables.dfy`: the same puts and gets on a table of many counters.
* `histories.dfy`, `protocol.dfy`: every interleaving of any number of invocations. Reads are
  eventually consistent (the source does not ask for more), so a read may return any version the
  item ever had. A put in flight may commit at any later time its condition holds, any number of
  times, and may be reported as refused or failed although it committed, as the client's own
  retries and timeouts make possible; only a success is never reported falsely.
* `panic_runs.dfy`, `refreshes.dfy`: where the documentation and the code disagree (see below).
* `bridge.dfy`: the items on the wire stand for the versions of a history, and every process of a
  run behaves as the loop does.
* `exact.dfy`, `giving_up.dfy`: runs with current reads and exact answers, and who can give up.
* `ledger.dfy`: the counter as a ledger that never forgets, refined by the store that prunes.
* `font.dfy`, `counter.dfy`, `layout.dfy`, `readback.dfy`: the glyphs, the renderer for any font, the
  image in pixels, and a decoder that reads the number back from it.

The constants and formats that the outside world sees are stated in numbers of their own, apart from
the definitions that use them: the seconds of a stored time, the two hours in nanoseconds, the bytes
on the wire, the items and conditions of the puts, the characters of a count, the rows of the glyphs
and the pixels of the image.

## Where the documentation and the code disagree

The comment at src/store.rs:34-37 says that the conditional puts keep concurrent invocations from
overwriting each other's updates. The condition is on the count alone, and a refresh leaves the
count as it is. `Protocol.OverwritesOnlyRefreshes` gives the exact condition for every run: a put
overwrites commits it had not seen if and only if there were some and every one of them was a
refresh. `LostRefreshes.RefreshIsOverwritten` is a run in which it happens, with two visitors and
clocks in the order of the commits, and in which a visitor is counted again 300 seconds after its
last visit. What does hold without exception is that counted visits are never lost, and
`Protocol.RunCountsOncePerWindow` bounds the damage: two commits that count the same visitor are a
cutoff apart, to the second, unless a writer between them found the list crowded or had a clock out
of order.

The `expect` at src/store.rs:413 and 426 says that "now is after last_seen". The clock is read once
and kept for all attempts, while a retry reads what others wrote in the meantime.
`PanicRuns.RunPanicsExactly` gives the exact condition for every run: an invocation stops with this
panic if and only if it reads a version that is ahead of its clock (`Panics.ClockBehind`), and the
table and the puts in flight then stay as they are. `PanicRuns.RetryPanics` is a run in which it
happens to the retry of an invocation that came fifty milliseconds before its rival.
`PanicRuns.LatestClockNeverPanics` says who is safe. The conversion at src/store.rs:143-159 can fail
as well, and `Panics.PlanPanicsExactly` says exactly when.

The renderer says that the number ends up right-aligned. It does up to one group spacing: the last
glyph ends two pixels before the edge, or five when the number of digits is a multiple of three
(`Counters.RightEdge`).

## Model

| member | source | states |
|---|---|---|
| Visitors.StoreAfterLoad | src/store.rs:143-186 | storing a loaded visitor gives back the stored one, for every tag and every 32-bit time |
| Visitors.LoadAfterStore | src/store.rs:143-186 | storing succeeds on exactly the span the table can hold, and loading then gives the time floored to the second |
| Visitors.StoredInSeconds | src/store.rs:66-68 | a stored second is the one the time lies in, counted from 1 690 000 000 seconds after the epoch, and loads as its start |
| Visitors.StorePanicsInSeconds | src/store.rs:143-159 | which of the three `expect`s fails, by the span the time lies in |
| Visitors.StoreKeepsOrder | src/store.rs:143-159 | narrowing never reorders two visitors |
| Visitors.StoreAndRecency | src/store.rs:143-186 | exactly when a narrowed visitor is still recent: it never becomes recent, and stays so at a second or more within the cutoff |
| Visitors.StoreAllAfterLoadAll | src/store.rs:225-256 | a list written back untouched is the list that was read |
| Decimal.TextIsNumeral | src/counter.rs:53 | the text of a number is a numeral for it without leading zeros |
| Decimal.ParseText | src/store.rs:315-324 | a count is read back from its text exactly when it fits 64 bits |
| Decimal.TextInDigits | src/counter.rs:53 | every character of the text is the decimal digit of its place, and there are no more than needed |
| Decimal.ParseForms | src/store.rs:315-324 | a plus sign and leading zeros change nothing, and a minus sign or no digit at all is not read |
| Decimal.TextIsInjective | src/store.rs:385-389 | comparing count texts is comparing counts |
| Cbor.HeadRoundTrip | src/store.rs:213-223 | every head reads back, whatever follows it |
| Cbor.HeadIsShortest | src/store.rs:213-218 | no other head for the same major type and argument is shorter |
| Cbor.VisitorRoundTrip | src/store.rs:132-141 | every visitor reads back from its map of two entries |
| Cbor.RoundTrip | src/store.rs:213-223 | every list, of any length, reads back from its encoding, whatever follows it |
| Cbor.EncodedOnWire | src/store.rs:132-141 | the encoding byte for byte: A1 61 76, the start of the array, and for each visitor A2 61 67, the tag, 61 74, the time |
| Cbor.ToCbor | src/store.rs:214-218 | the buffer filled visitor by visitor is these bytes, and decodes to the list |
| Cbor.VisitorsSize | src/store.rs:59-64 | fifteen bytes per visitor at most, and exactly for tags and times of at least 65536 |
| Cbor.EncodedSize | src/store.rs:59-64 | a list of permitted length fits the space reserved for it; the bound of 398 976 bytes is attained exactly by a full list of 26 598 wide visitors |
| RecentVisitors.SortElements | src/store.rs:432-434 | the sort is a permutation |
| RecentVisitors.FilterSort | src/store.rs:432-434 | the sort commutes with every filter, which makes it stable |
| RecentVisitors.StableSortIsUnique | src/store.rs:432-434 | a list is the sorted one iff it is descending and keeps visitors with equal times in order |
| RecentVisitors.FirstMatch | src/store.rs:407-410 | the first index with the tag, or none if no entry has it |
| RecentVisitors.FoundWithinTwoHours | src/store.rs:402-416 | the first entry with the tag is found iff t <= now < t + 7 200 000 000 000 ns, and panics iff now < t |
| RecentVisitors.KeptWithinTwoHours | src/store.rs:420-438 | a prune panics iff some t > now; it keeps only entries with t <= now < t + 7 200 000 000 000 ns, and drops such an entry only when full, in favour of entries as new |
| RecentVisitors.TruncatedIsNewestFirst | src/store.rs:430-437 | a truncated list is newest first, and equal times stay in the order they were in |
| RecentVisitors.PruneKeepsRecent | src/store.rs:420-438 | only recent visitors are kept, no more than allowed, all of them in order when they fit, and distinct tags stay distinct |
| RecentVisitors.PruneKeepsNewest | src/store.rs:430-437 | the recent visitors are split into the kept and the dropped, and every kept one is at least as new as every dropped one |
| RecentVisitors.PushedSurvives | src/store.rs:420-461 | a pushed visitor, the same as a stale entry or not, survives iff it is recent and fewer than the maximum of the others are recent and at least as new |
| RecentVisitors.EarlyPruneIsHarmless | src/store.rs:420-438 | pruning early never changes what a later prune keeps, nor its order when it truncates; pruning is idempotent |
| CountEntries.CountEntry.FindRecentMut | src/store.rs:402-416 | the search loop finds the first match if it was seen within two hours, nothing if it is older, and panics if it is newer than now |
| CountEntries.CountEntry.PruneVisitors | src/store.rs:420-438 | the in-place prune leaves the pruned list: of the visitors seen within two hours, all, or as many of the newest as allowed; it panics iff some visitor was seen after now |
| CountEntries.CountEntry.Update | src/store.rs:456-466 | refresh or push, then prune, leaves the revised entry; it counts iff the first match was not seen within two hours |
| Updates.TouchCounts | src/store.rs:456-463 | the count rises by one iff no entry of the visitor is recent, and who is on the list afterwards |
| Updates.TouchThenFilterIsDistinct | src/store.rs:402-466 | the stale match a push leaves behind never survives the filter that follows |
| Updates.ReviseKeeps | src/store.rs:456-466 | one update keeps tags distinct, the list within bounds, every entry recent and none after now |
| Updates.ReviseEnters | src/store.rs:456-466 | without truncation the visitor is on the list, as seen if counted and as of now if refreshed, iff that is recent, and everybody else as before |
| Updates.PlanKeeps | src/store.rs:452-485 | every put asks for the count that was read, counts its visitor iff the list read does not hold it as recent, and writes a list that keeps the invariants |
| Updates.PlanStamps | src/store.rs:452-485 | every time written is one that was read, or the visitor's own, or the clock's |
| Updates.PlanRetains | src/store.rs:452-472 | a visitor read as recent stays on the list unless it is crowded |
| Updates.PlanDrops | src/store.rs:420-438 | an update forgets a tag only as stale by its clock or for room |
| Updates.PlanWithinWindow | src/store.rs:452-472 | while everything is recent and there is room, an update adds exactly its tag and counts exactly a new one |
| Updates.PlanNeverSetsBack | src/store.rs:456-485 | one update never moves a listed visitor's stored time back |
| Updates.PlanCountsAsSeen | src/store.rs:456-472 | a counted visitor is listed with the time it was seen, unless that is not recent or the list is crowded |
| Panics.RevisePanicsExactly | src/store.rs:402-438 | an update in memory panics iff the list holds a time after now, or the visitor is counted and was itself seen after now |
| Panics.PlanPanicsExactly | src/store.rs:143-159 | exactly when an update of an item panics, and with what: on a time after now, or on its own time if the table cannot hold it and the prune lets it through |
| Plans.PlanPushes | src/store.rs:456-485 | what is written for a visitor that is not found recent: the recent entries in order and itself at the end, with one more on the count |
| Plans.PlanRefreshes | src/store.rs:456-485 | what is written for a visitor that is found recent: the recent entries in order with itself renewed in its place, and the same count |
| Stores.ItemRoundTrip | src/store.rs:302-337 | a version put to the table is the version the next reader gets, iff its count fits 64 bits |
| Stores.ItemErrors | src/store.rs:313-334 | exactly which item is unreadable for which reason, and what any other is read as |
| Stores.ConditionOnText | src/store.rs:355-388 | the two condition expressions hold of an item exactly when the item is absent, or has the expected count |
| Stores.Store.GetCountEntry | src/store.rs:303-337 | one get, and the entry it holds, no entry, or the first thing wrong with the response |
| Stores.Store.TryPutNewCountEntry | src/store.rs:344-370 | one put of the item with the counter's name as key, count 1 and the bytes of the visitor alone, on the condition that there is no key, and what its report means |
| Stores.Store.TryPutCountEntry | src/store.rs:376-399 | one put of the item with the counter's name as key, the entry's count and the bytes of its list, on the condition that the count is the initial one, and what its report means |
| Stores.Store.Attempt | src/store.rs:452-486 | one pass of the loop is one read step and one report step of the invocation machine |
| Stores.Store.MaybeIncrementVisitors | src/store.rs:440-489 | for any answers, the loop returns the outcome and makes the puts of the machine, all of them and all gets for its own counter; only a refused put is followed by another, an accepted one returns its count, a failed one its error, and five refusals give up |
| Tables.PutIsForItsCounter | src/store.rs:354-388 | a put is tested on the item of its own counter and replaces that one only, for the counter's next reader |
| Tables.WhatConditionsAsk | src/store.rs:355-384 | the two conditions ask for an item without a key, or with this text as count |
| Tables.RequestIsRead | src/store.rs:303-399 | on a table a request is accepted iff its count condition holds, and then the counter's next reader gets its version |
| Tables.ServedFromTable | src/store.rs:440-489 | a call on its own puts once, counts unless the list has its visitor as recent, and leaves every other counter as it was |
| Tables.SecondVisit | src/store.rs:402-463 | of two visits on their own the second is counted iff it comes 7 200 000 000 000 ns or more after the second of the first |
| Tables.SecondVisitInSeconds | src/store.rs:70-71 | after 7199 seconds a visit is a refresh, and after 7200 it counts |
| Histories.VersionKeeps | src/store.rs:452-485 | every version of a history has distinct tags and a positive count |
| Histories.CommitCounts | src/store.rs:376-399 | no ABA: a commit finds the count its writer read, and moves it by one iff it counts a visit |
| Histories.CountGrows | src/store.rs:454-486 | between two versions the count grows by the counted commits between them |
| Histories.AdmittedExactly | src/store.rs:34-37 | a put is admitted iff no counted commit happened since the version it was computed from |
| Histories.CountedIsInherited | src/store.rs:376-399 | every version after a counted commit was computed, step by step, from that commit's version |
| Histories.CountedTagIsPrunedOrThere | src/store.rs:376-438 | a counted tag is missing later only if a writer in between read it and pruned it, as stale or for room |
| Histories.CountedAgainOnlyIfStaleOrPruned | src/store.rs:402-463 | a visitor whose first count left it on the list is counted again only if its entry was stale by the second clock, or pruned in between as stale or for room |
| Histories.CountedOncePerWindow | src/store.rs:402-463 | two commits count the same visitor only if at or between them some writer's clock was a cutoff after the first one's time, to the second, or some writer found the list crowded |
| Histories.CountedNumbers | src/store.rs:454-486 | counted commits get different numbers, in order, from 1 to the count |
| Histories.NumberIsCounted | src/store.rs:454-486 | every number from 1 to the count was given out by a counted commit |
| Histories.EveryTimeIsStamped | src/store.rs:452-485 | every stored visitor was stamped by a visit of that visitor, to the second |
| Histories.CloseClocksAreWithinWindow | src/store.rs:402-416 | clocks within a cutoff less a second of one another keep every history within one window |
| Histories.CountIsDistinctVisitors | src/store.rs:450-488 | within one window and with room, the count is the number of distinct visitors that committed |
| Histories.EveryVersionFits | src/store.rs:402-466 | every version has distinct tags, fits an item, and holds no time after its writer's clock |
| Protocol.StepKeepsValid | src/store.rs:450-488 | every step of every invocation keeps the invariant |
| Protocol.RunIsValid | src/store.rs:450-488 | the invariant holds after every run |
| Protocol.NoCountedVisitIsLost | src/store.rs:454-486 | in every run the count is the number of counted commits, and no continuation makes it smaller |
| Protocol.ReturnedNumbersDiffer | src/store.rs:469-481 | counted invocations that return get different numbers between 1 and the count |
| Protocol.ReturnedNumbersCover | src/store.rs:469-481 | with every commit acknowledged, each number from 1 to the count is returned to exactly one invocation |
| Protocol.RunCountsDistinctVisitors | src/store.rs:450-488 | in every run within one window the count is the number of distinct visitors: racing with oneself counts once |
| Protocol.CloseRunCountsDistinctVisitors | src/store.rs:450-488 | the same from a condition on the visits' clocks alone |
| Protocol.RunVersionsFit | src/store.rs:59-64 | every value committed in any run fits the space reserved for it, with distinct tags and no time from the future |
| Protocol.RunLosesTagsOnlyToPrunes | src/store.rs:376-438 | in every run a counted tag is lost to a prune or not at all |
| Protocol.OverwritesOnlyRefreshes | src/store.rs:34-37 | in every run a put overwrites unseen commits iff there are some and all of them are refreshes |
| Protocol.RunCountsOncePerWindow | src/store.rs:402-463 | in every run, two commits that count the same visitor are a cutoff apart, to the second, while lists are not crowded and clocks are in order |
| PanicRuns.ReadPanicsExactly | src/store.rs:402-438 | a read stops its invocation iff its clock is behind the version read or its time does not fit the table, and then nothing else changes |
| PanicRuns.RunPanicsExactly | src/store.rs:402-438 | in every run an invocation ends in the panic on "now is after last_seen" iff it read a version ahead of its clock |
| PanicRuns.LatestClockNeverPanics | src/store.rs:402-438 | an invocation whose clock is behind nobody's never ends in it |
| PanicRuns.RetryPanics | src/store.rs:440-489 | a run in which a refused put is retried and the retry panics |
| LostRefreshes.RefreshIsOverwritten | src/store.rs:34-37 | a run, with clocks in order, in which a refresh is overwritten and its visitor counted again after 300 seconds |
| ExactRuns.MovesAreSteps | src/store.rs:450-488 | runs with current reads and exact answers are runs |
| ExactRuns.RunIsExact | src/store.rs:450-488 | in such runs a failed attempt always means one more counted commit since the first read |
| ExactRuns.GivingUpSawFiveCounted | src/store.rs:450-488 | who gives up does so when its fifth put is refused, and by then at least five other invocations were counted since its first read |
| ExactRuns.FiveNeverGiveUp | src/store.rs:450-488 | with at most five invocations in all, none gives up |
| GivingUp.SixthCanGiveUp | src/store.rs:450-488 | with six different visitors at one time, one can |
| Ledgers.ServeRefinesLedger | src/store.rs:402-463 | visits served one after the other, with room and clocks that do not run back, refine a ledger that never forgets |
| Ledgers.VisitCountsIffNew | src/store.rs:456-463 | a visit then increments iff its visitor never came or its last visit is a cutoff or more ago |
| Bridge.TableSpeaksForHistory | src/store.rs:303-399 | on the wire the item reads as the version of the history, and conditions hold of it exactly when puts are admitted |
| Bridge.DriveFollows | src/store.rs:440-489 | a client whose script begins with given answers drives the loop to the machine's outcome and puts for them |
| Bridge.ProcessIsLoop | src/store.rs:440-489 | every finished process of a run ended as the loop does for some script, and sent the loop's puts, one for each attempt in order |
| Bridge.ServedAlone | src/store.rs:440-489 | served alone, an invocation makes one put and returns the count plus one iff its visitor is not recent |
| Fonts.GlyphsInRows | src/counter.rs:168-349 | the sixteen rows of every digit's bitmap, as numbers |
| Fonts.GlyphsAreLegible | src/counter.rs:168-349 | the ten glyphs differ pairwise and each has a lit pixel in its first column |
| Counters.BoxesApart | src/counter.rs:72-87 | glyph boxes go from left to right at least nine pixels apart |
| Counters.FromTheRight | src/counter.rs:58-87 | digit j from the right starts 9 j + 3 (j / 3) pixels left of the units digit |
| Counters.RightEdge | src/counter.rs:66-87 | the last glyph ends two pixels before the edge, or five if the digits are a multiple of three, for every reserve |
| Counters.BoxInside | src/counter.rs:66-87 | every glyph box lies inside the image and never wraps |
| Counters.GroupsCut | src/counter.rs:58-64 | the groups cut the text into threes from the right |
| Counters.GroupShapes | src/counter.rs:58-64 | the groups concatenate to the text, all of length three but the first |
| Counters.WritePixel | src/counter.rs:131-145 | writes the four bytes of one pixel and no others |
| Counters.BlitGlyphInto | src/counter.rs:122-148 | for every place whose bytes are in the buffer: each pixel shows the last row of the glyph that covers it, rows that stick out going on in the next one, and nothing else changes |
| Counters.BlitInto | src/counter.rs:106-120 | for every text that is in the buffer: each digit is drawn over those before it, one kern apart, and nothing else changes |
| Counters.DigitsInOrder | src/counter.rs:106-120 | the characters of a text are taken one by one, in order |
| Counters.DigitsOfOne | src/counter.rs:150-157 | a character that is a digit is drawn as that digit, and any other not at all |
| Counters.LinePixelShowsLast | src/counter.rs:106-148 | a pixel shows the last digit that covers it, and is as it was if none does |
| Counters.LineInItsBoxes | src/counter.rs:106-148 | a text that does not stick out is drawn into the boxes of its digits and nowhere else |
| Counters.BlitGroup | src/counter.rs:84-87 | one more group adds exactly its digits to the picture |
| Counters.RenderWith | src/counter.rs:52-94 | the image is the declarative picture of the number, for every number, reserve and font |
| Layouts.PictureInPixels | src/counter.rs:52-94 | width, height and all four bytes of every pixel, with the digits counted from the right edge |
| Layouts.ReserveFixesSize | src/counter.rs:66-70 | up to the reserve all images have one size, that of a number with as many digits |
| ReadBack.FilledReserveIsNone | src/counter.rs:66-83 | a number with at least as many digits as the reserve starts at column 1, and its image is the one without a reserve |
| ReadBack.PictureShowsGlyph | src/counter.rs:122-148 | in a digit's box the image shows that digit's glyph and nothing else |
| ReadBack.PictureStarts | src/counter.rs:72-83 | the first lit column is where the first digit starts |
| ReadBack.MarginGivesDigits | src/counter.rs:66-83 | start and width determine the number of digits, whatever the reserve |
| ReadBack.PictureIsRead | src/counter.rs:52-94 | a decoder that knows neither the reserve nor the digits reads the numeral back |
| ReadBack.NumberIsRead | src/counter.rs:52-94 | the image of a number says which number it is |
| ReadBack.DistinctNumbersLookDistinct | src/counter.rs:52-94 | distinct numbers never have the same image, even for different reserves |
| ReadBack.RenderSeparatedNumber | src/counter.rs:52-94 | rendering with the counter's glyphs gives this image for every number and reserve, and the number can be read back from it |

## Left out

- The AWS client, its timeouts and retries, async and the test fakes: only "read some version" and "conditional put" remain, with the unreliability the retries cause.
- MD5 and the visitor's tag: a tag is any 32-bit number, and a collision is the same visitor.
- `u32_from_ne_bytes`, `request_info.rs` and the Lambda handler: short guards without a deep property.
- Overflow of the 64-bit count and of `usize`: counts and sizes are natural numbers, and `Stores.ItemRoundTrip` says what a reader makes of a count that no longer fits.
- Cbor.Decode: accepts any definite-length head, but only the encoder's own keys in the encoder's own order; the library also reads other key orders, unknown fields and indefinite lengths.
- PNG encoding, the infrastructure code, the benchmark and the local window viewer.
- The library's sort itself: `SortDescending` is a function, and `RecentVisitors.StableSortIsUnique` shows that any stable descending sort computes it.
- Deletion of an item, or writes to it by anything but the modelled invocations.
