# chiya in Dafny

A model of the hard parts of chiya, and proofs about it:

- the byte containers `BytesMut`, `Bytes` and `Vec<u8>`: handles that carve shared, reference-counted allocations
  into windows (`DataWord`, `Memory`, `Heap`, `BytesMut`, `BytesMutReserve`, `BytesViews`, `Conversions`, `Runs`),
  the race to promote one `Bytes` (`Promotion`), and one block whose handles live on different threads (`SharedBlock`);
- the stamped lock behind `AtomicCell` (`SeqLock`) and the join handshake (`Join`), as machines that make one shared
  access at a time;
- HTTP dates: calendar arithmetic (`Calendar`), printing and parsing (`HttpDate`);
- chunked readers and writers (`Buffers`, `Sinks`) and integer codecs (`IntCodec`);
- the byte-string printer (`DebugPrint`) and stack allocation (`Stack`).

A pointer is an allocation id and an offset. `Heap.Arena` holds the allocations, the shared blocks and the handles as
fields that the operations update; `Memory.Inv` says what every reachable state keeps, and `Abs` gives every live
value a byte string of its own. Each operation states its effect as an equation on these byte strings, so it also
says that every other value keeps its bytes. `Runs.Run` puts them together: any sequence of operations behaves like
the same sequence on independent values, each with its kind, bytes, capacity and class, keeps the invariant, and frees
every allocation exactly once. Sums are those of a build with overflow checks: where the source adds unchecked, an
overflow is a panic.

Where a line of the source does something other than what its surroundings and documentation say, the model follows
what is meant, and a member whose name or comment says "as written" or "wrapped" shows what the written line does:
`bytes/src/bytes.rs:893` and `:1149`, `bytes/src/bytes_mut.rs:311` and `:382`, `date/src/date_time.rs:92`, `:291` and
`:350`, `bytes/src/buf/buf_impl.rs:66`, `coroutine/src/sync/seq_lock.rs:45`. Meant without such a member:
`bytes/src/bytes.rs:872` and `:1142`, `coroutine/src/sync/thread_park.rs:29` and `:32`.

`dafny verify dfyconfig.toml` checks everything.

## Model

| member | source | states |
|---|---|---|
| `Runs.Run` | bytes/src/bytes_mut.rs:96-178 | Any sequence of operations from an empty memory: every state on the way is sound, every step does to all values exactly what its operation says, in kind, bytes, capacity and class, and when no value is left nothing is allocated and everything allocated was freed exactly once |
| `Runs.Step` | bytes/src/bytes_mut.rs:126-495 | One operation on any value keeps the invariant and has its meaning on independent values: conversions give the kind they promise, splits divide bytes and capacity, a reserve does nothing when there is room and otherwise leaves the room exactly when it may allocate without overflow or can reuse the allocation, panics change nothing, and every other value keeps kind, bytes, capacity and class |
| `Runs.ClassForLife` | bytes/src/bytes_mut.rs:348-363 | Through any run, as long as an id names a `BytesMut` its capacity class is the one it had at first |
| `Runs.Meaning` | bytes/src/bytes_mut.rs:872-906 | What the invariant says: a byte one value may write lies in no other value's window, windows are in bounds, counts are numbers of holders, live allocations are in use and unfreed, gone ones were freed once |
| `Runs.Empty` | bytes/src/bytes.rs:1208-1220 | Without values there is no memory and every allocation was freed exactly once |
| `DataWord.NewWord` | bytes/src/bytes_mut.rs:417-432 | The packed word holds kind, class and position zero independently |
| `DataWord.SetVecPos` | bytes/src/bytes_mut.rs:539-552 | Setting the position keeps kind and class and fits a machine word |
| `DataWord.ClassDecodesToLargestPower` | bytes/src/bytes_mut.rs:909-925 | Decoding a capacity class gives 0 below 1024 and otherwise the largest power of two not above the capacity and 65536 |
| `Heap.Arena.Dealloc` | bytes/src/bytes.rs:1010-1016 | A block is released only with the size it was allocated with, once |
| `Heap.Arena.CopyNonoverlapping` | bytes/src/bytes_mut.rs:261-269 | The copy whose ranges must not share a byte; every caller proves that they do not |
| `Heap.Arena.ReleaseShared` | bytes/src/bytes_mut.rs:882-900 | The count goes down by one, and the last holder frees the block and its allocation with the capacity the block recorded |
| `Memory.WriteIsLocal` | bytes/src/bytes_mut.rs:440-443 | A write inside one handle's window changes no other value's bytes |
| `Memory.ReleaseKeeps` | bytes/src/bytes_mut.rs:566-581 | Dropping a value in any form keeps the invariant |
| `BytesMut.PromotedKeeps` | bytes/src/bytes_mut.rs:502-522 | Promotion to a shared block keeps the invariant and everybody's bytes |
| `BytesMut.PromoteToShared` | bytes/src/bytes_mut.rs:502-522 | The block records the rebuilt vector, its length and its capacity counted from the start of the allocation, and the class of the word |
| `BytesMut.ShallowClone` | bytes/src/bytes_mut.rs:525-537 | Two handles on one window, counted |
| `BytesMut.AdvancedKeeps` | bytes/src/bytes_mut.rs:450-474 | Moving the start past any part of the capacity, packed or promoting, keeps the invariant and drops those bytes |
| `BytesMut.AdvanceUnchecked` | bytes/src/bytes_mut.rs:450-474 | The method computes that state |
| `BytesMut.AdvancedStaysPacked` | bytes/src/bytes_mut.rs:460-468 | Advancing promotes a vector-backed value exactly when the distance from the start of its vector no longer fits the word |
| `BytesMut.SplitOff` | bytes/src/bytes_mut.rs:126-146 | Fails exactly past the capacity; otherwise the two values hold the two parts and their windows divide the old window |
| `BytesMut.SplitTo` | bytes/src/bytes_mut.rs:158-178 | Fails exactly past the length; otherwise the same with the front given away |
| `BytesMut.Advance` | bytes/src/bytes_mut.rs:595-608 | Fails exactly past the length; drops the front, and the capacity class survives |
| `BytesMut.Truncate` | bytes/src/bytes_mut.rs:181-186 | Keeps the front |
| `BytesMutReserve.ReserveInner` | bytes/src/bytes_mut.rs:248-368 | In all six branches contents, class and all other values are unchanged and, on success, the room is there; it panics exactly when a sum leaves a machine word; it fails only without permission to allocate, exactly when nothing can be reclaimed; then nothing changed; an allocation that can be reused is, without allocating or freeing |
| `BytesMutReserve.ReclaimableIff` | bytes/src/bytes_mut.rs:261-318 | In every sound state room is reclaimed exactly when no other value uses the allocation and it is large enough for the bytes and the room, moved to the front without overlap or, in shared kind, where they are; likewise when a sum overflows |
| `BytesMutReserve.OneIsAlone` | bytes/src/bytes_mut.rs:902-906 | A count of one says exactly that no other value uses the allocation |
| `BytesMutReserve.Reserve` | bytes/src/bytes_mut.rs:231-243 | Does nothing when there is room, otherwise makes it, allocating exactly when the allocation cannot be reused; panics exactly on an overflowing sum, unchanged |
| `BytesMutReserve.ReserveVec` | bytes/src/bytes_mut.rs:252-292 | The branches of a sole vector: the bytes move to the front exactly when that is enough and the ranges are apart |
| `BytesMutReserve.ReserveShared` | bytes/src/bytes_mut.rs:294-368 | The half for shared kind: checked sum, reuse by the only holder, or a vector of its own |
| `BytesMutReserve.ReserveUnique` | bytes/src/bytes_mut.rs:304-342 | The branches of a shared block with one holder, with the recorded capacity and with the exact condition of an overflowing sum |
| `BytesMutReserve.WrappedSumOversteps` | bytes/src/bytes_mut.rs:311-312 | Without overflow checks the sum wraps, the test for room passes, and the window leaves the block, exactly when the sum does not fit a machine word |
| `BytesMutReserve.Detach` | bytes/src/bytes_mut.rs:344-368 | A shared value moves to a vector of its own, keeping its class |
| `BytesMutReserve.TryReclaim` | bytes/src/bytes_mut.rs:374-383 | As documented: never allocates, succeeds exactly when there is or can be room, panics exactly on an overflowing sum, otherwise changes nothing |
| `BytesMutReserve.TryReclaimAsWritten` | bytes/src/bytes_mut.rs:382 | As written it never answers no, panics exactly when there is no room and a sum overflows, changing nothing, and does not allocate exactly when the documented one would have succeeded |
| `BytesMutReserve.FullVecCannotReclaim` | bytes/src/bytes_mut.rs:382 | A sound state where the documented one refuses, so that the written one allocates: a full vector of one byte |
| `BytesMutReserve.Append` | bytes/src/bytes_mut.rs:387-401 | Bytes written into spare capacity appear at the end of this value only |
| `BytesMutReserve.ExtendFromSlice` | bytes/src/bytes_mut.rs:387-401 | Appends, reserving first when needed, and keeps the class; panics exactly when the room it needs overflows, and then nothing changed |
| `BytesMutReserve.Store` | bytes/src/bytes_mut.rs:703-708 | A byte stored through the mutable slice changes that byte of that value only |
| `BytesMutReserve.Drop` | bytes/src/bytes_mut.rs:566-581 | The value goes, the others stay, and the allocation goes exactly with its last user |
| `BytesMutReserve.AdjacentHasNoSpare` | bytes/src/bytes_mut.rs:476-495 | Disjoint windows force the first of two adjacent values to have no spare capacity |
| `BytesMutReserve.TryUnsplit` | bytes/src/bytes_mut.rs:476-495 | Succeeds exactly on an empty capacity or adjacent windows of one block; the merged window is exactly the union |
| `BytesMutReserve.Unsplit` | bytes/src/bytes_mut.rs:404-414 | Always yields the bytes of the first followed by those of the second, in place or by copying, in the class of the value it goes on as; panics exactly when the copy overflows, dropping the second only |
| `BytesMutReserve.SplitOffThenUnsplit` | bytes/src/bytes_mut.rs:404-414 | Splitting and joining restores the bytes, and the whole window when the split was inside the contents |
| `BytesViews.FromStatic` | bytes/src/bytes.rs:54-61 | A static view adds a value and no allocation |
| `BytesViews.MutFromVec` | bytes/src/bytes_mut.rs:417-432 | A vector becomes a `BytesMut` with the class of its capacity |
| `BytesViews.ViewFromVec` | bytes/src/bytes.rs:602-666 | A vector becomes a view: boxed when full, shared otherwise, static when empty |
| `BytesViews.ViewPromotedKeeps` | bytes/src/bytes.rs:1165-1206 | Promotion of a boxed view records the allocated size and keeps everything else |
| `BytesViews.Clone` | bytes/src/bytes.rs:330-335 | The clone has the same bytes; everybody keeps theirs; nothing is allocated |
| `BytesViews.CloneArc` | bytes/src/bytes.rs:1147-1163 | One more reference is counted |
| `BytesViews.ClonedAsWrittenMiscounts` | bytes/src/bytes.rs:1149 | Loading the count without adding leaves it one behind the holders, from every sound state |
| `BytesViews.AdvanceView` | bytes/src/bytes.rs:349-360 | Fails exactly past the length; drops the front |
| `BytesViews.SliceView` | bytes/src/bytes.rs:129-168 | A new view on exactly the bytes whose index meets both bounds, in order; fails exactly on reversed, overlong or overflowing ranges |
| `BytesViews.RangeMeets` | bytes/src/bytes.rs:133-142 | For every index: it lies between the computed bounds exactly when it meets the given ones, included, excluded or absent; a bound overflows exactly at the largest machine word |
| `BytesViews.SelectedIsRange` | bytes/src/bytes.rs:133-167 | Picking the bytes one by one by their bounds gives the range |
| `BytesViews.SplitOffView` | bytes/src/bytes.rs:205-228 | Fails exactly past the length; otherwise two views hold the two parts |
| `BytesViews.SplitToView` | bytes/src/bytes.rs:232-257 | The same with the front given away |
| `BytesViews.TruncateView` | bytes/src/bytes.rs:261-271 | Keeps the front; a boxed view promotes before its end moves |
| `BytesViews.DropView` | bytes/src/bytes.rs:929-993 | The value goes; in vector kind the size recomputed as offset plus length is the allocated one |
| `Conversions.BlockSizeIsAllocated` | bytes/src/bytes.rs:1010-1016 | In every sound state each representation computes the size its block was allocated with, from its own fields or from what its shared block recorded |
| `Conversions.Freeze` | bytes/src/bytes_mut.rs:96-117 | Same bytes at the same place, read-only, nothing allocated |
| `Conversions.IntoVec` | bytes/src/bytes.rs:858-883 | From every representation the bytes survive; the buffer is reused exactly when nobody else holds it |
| `Conversions.TakeVec` | bytes/src/bytes_mut.rs:1081-1115 | A sole holder's bytes move to the front of its own block |
| `Conversions.CopyOutShared` | bytes/src/bytes.rs:1060-1091 | A holder that is not alone is copied and lets the old block go without freeing it |
| `Conversions.Thaw` | bytes/src/bytes_mut.rs:1195-1226 | The only holder of a block made by `BytesMut` gets its spare capacity back in place |
| `Conversions.IntoMut` | bytes/src/bytes.rs:885-911 | From every representation the bytes survive; the buffer is reused exactly when nobody else holds it |
| `Conversions.TryIntoMut` | bytes/src/bytes.rs:280-286 | Succeeds exactly on a unique view, otherwise gives it back unchanged |
| `BytesViews.UniqueIsAlone` | bytes/src/bytes.rs:885-911 | The test for reuse holds exactly when no other value uses the allocation |
| `Conversions.WrittenWayIsRightUntilPromotion` | bytes/src/bytes.rs:893-898 | The written product always rebuilds a vector, which is the way meant exactly until the view is promoted |
| `Promotion.StepKeeps` | bytes/src/bytes.rs:1165-1206 | Every atomic access by any thread keeps the invariant |
| `Promotion.WinKeeps` | bytes/src/bytes.rs:1186-1196 | The winner of the swap installs a block that counts exactly the two references |
| `Promotion.LoseKeeps` | bytes/src/bytes.rs:1197-1203 | A loser discards its block without freeing the buffer |
| `Promotion.TakeOverBaseKeeps` | bytes/src/bytes.rs:858-911 | The original taken over as a vector or `BytesMut`, boxed or as the only holder of its block, keeps the invariant |
| `Promotion.InstalledForGood` | bytes/src/bytes.rs:1165-1206 | In every run, once a block is installed it stays the one |
| `Promotion.Safety` | bytes/src/bytes.rs:1147-1220 | In every state of every run of any number of threads the count equals the live references, the buffer goes at most once, never while referenced, and exactly once in the end |
| `Promotion.ClonesAreDelivered` | bytes/src/bytes.rs:1165-1206 | Conservation over every run: the clones asked for are those alive, those given up and those in flight; the original lives until it is dropped or taken over |
| `Promotion.NeverStuck` | bytes/src/bytes.rs:1165-1206 | Whatever the others do, a thread in the middle of a clone or a release can go on and is done after at most three steps of its own |
| `Promotion.OthersKeepMyPlace` | bytes/src/bytes.rs:1165-1206 | No step of another thread sets one back |
| `Promotion.AddReferenceAsWrittenMiscounts` | bytes/src/bytes.rs:1149 | The written load leaves the count one behind the references, from every sound state |
| `SharedBlock.LoadKeeps` | bytes/src/bytes_mut.rs:902-906 | A handle loads the count 1 exactly when it is the only one, whatever other threads were about to do |
| `SharedBlock.TakeWholeKeeps` | bytes/src/bytes_mut.rs:304-342 | What the owner does in reliance on that load keeps the invariant |
| `SharedBlock.FetchSubKeeps` | bytes/src/bytes_mut.rs:882-900 | Only the last reference taken off the count leads to freeing |
| `SharedBlock.StepKeeps` | bytes/src/bytes_mut.rs:872-906 | Every access by any thread to the count, the bytes or the windows keeps the invariant |
| `SharedBlock.Safety` | bytes/src/bytes_mut.rs:882-906 | In every state of every run, between the load of the count and the writes that follow it the owner's handle is the only one; the count is the number of handles; the block is freed at most once, never while a handle is left, and once in the end |
| `SharedBlock.NoRace` | bytes/src/bytes_mut.rs:927-928 | In no state of any run can two threads touch the same byte next when one of them changes it, moves it or frees it |
| `SharedBlock.NoByteLost` | bytes/src/bytes_mut.rs:126-178 | Splitting, joining and cloning lose no byte of the block, for reading or for writing, and reach no new one |
| `SharedBlock.NeverStuck` | bytes/src/bytes_mut.rs:882-906 | A handle in the middle of an operation can always go on, and a block without handles can be freed |
| `SeqLock.StepKeeps` | coroutine/src/sync/seq_lock.rs:23-88 | Every shared access by any reader or writer keeps the invariant |
| `SeqLock.MutualExclusion` | coroutine/src/sync/seq_lock.rs:39-56 | In every run at most one guard exists |
| `SeqLock.StampsStayEven` | coroutine/src/sync/seq_lock.rs:69-88 | In every run a free lock holds an even stamp |
| `SeqLock.StampsDiffer` | coroutine/src/sync/seq_lock.rs:80-88 | Stamps within 2^63 stores of each other differ |
| `SeqLock.StampsRepeat` | coroutine/src/sync/seq_lock.rs:80-88 | After exactly 2^63 stores the stamp is the same again, so the bound is sharp |
| `SeqLock.LoadsAreAtomic` | coroutine/src/sync/mod.rs:75-100 | A load that returns, validated or locked, returns the whole committed value of that moment |
| `SeqLock.LoadsSeeStores` | coroutine/src/sync/mod.rs:63-122 | In every run a load returns, for the cell it was asked for, the value that the stores committed so far were asked to write, as if each load and store were one step |
| `SeqLock.StoreCommits` | coroutine/src/sync/mod.rs:108-122 | A store appends its own cell and value to the committed stores and leaves that value in memory |
| `SeqLock.LoadReturns` | coroutine/src/sync/mod.rs:63-103 | A load of a cell returns the committed value of that cell |
| `SeqLock.CurrentIsLast` | coroutine/src/sync/mod.rs:104-108 | The committed value of a cell is that of the last store to it, or the initial one |
| `SeqLock.SoloFinishes` | coroutine/src/sync/seq_lock.rs:39-66 | A thread that runs alone while no other one holds the lock finishes within a bound given by the size of the value; a store has then committed its value |
| `SeqLock.SomebodyFinishes` | coroutine/src/sync/seq_lock.rs:39-66 | In every sound state in which a thread is busy, some busy thread can finish so: there is no deadlock |
| `SeqLock.WrittenSwapBreaks` | coroutine/src/sync/seq_lock.rs:45 | From every sound state the written test makes a second guard, or takes a free lock without making one |
| `Join.StepKeeps` | coroutine/src/join.rs:39-62 | Every step of waiter, coroutine and parker keeps the invariant |
| `Join.NeverStuck` | coroutine/src/sync/thread_park.rs:22-55 | Before both are done somebody can move: a sleeping waiter has or will get its token |
| `Join.EveryRunEnds` | coroutine/src/join_handle.rs:52-59 | Every run is bounded by 19 steps plus two per spurious wake-up, and a run that cannot go on has delivered what the body of that run was to store |
| `Join.WaitMeansDone` | coroutine/src/join.rs:47-62 | A wait that began with a clear token returns only after the coroutine is done, and `join` then yields its value, its panic data, or a cancellation if there is neither |
| `Join.WaitMeansDoneIffTokenClear` | coroutine/src/sync/thread_park.rs:22-45 | The promise of wait holds on all runs exactly when no token was set before it |
| `Join.StaleTokenReturnsEarly` | coroutine/src/join.rs:47-62 | With a token left over, wait returns and join reports cancellation while the body still runs |
| `Join.MayLeaveToken` | coroutine/src/join.rs:39-62 | A complete wait can leave such a token behind |
| `Calendar.SplitDays` | date/src/date_time.rs:58-90 | Taking cycles off the remaining days in place computes the decomposition |
| `Calendar.FindMonth` | date/src/date_time.rs:93-104 | The month loop computes the month and the day in it |
| `Calendar.FromSeconds` | date/src/date_time.rs:41-130 | Fails exactly from the year 10000 on, otherwise computes the date |
| `Calendar.CyclesOf` | date/src/date_time.rs:58-90 | The cycles have their sizes, add up to the day, and a 366th day exists only in a leap year |
| `Calendar.CivilIsRight` | date/src/date_time.rs:92-113 | The year, month and day of a day are a day of the calendar and the one the calendar counts there |
| `Calendar.ClosedFormCountsYears` | date/src/date_time.rs:132-157 | The closed form of leap years counts what the Gregorian calendar counts year by year |
| `Calendar.LeapTermsFit` | date/src/date_time.rs:134-135 | The unsigned subtraction in it does not go below zero |
| `Calendar.DayNumberIsCalendar` | date/src/date_time.rs:136-157 | The day number is the sum of the years, months and days before |
| `Calendar.MonthLengths` | date/src/date_time.rs:435-437 | The length of each month by number, and leap years across centuries |
| `Calendar.WeekdayOfDay` | date/src/date_time.rs:114-118 | The weekday cycles 1 to 7 one step per day from Thursday 1 January 1970 |
| `Calendar.DateOfIsCalendar` | date/src/date_time.rs:41-130 | Every second in range falls on a calendar date, and counting that date gives the second back |
| `Calendar.RoundTrip` | date/src/date_time.rs:41-167 | The two conversions are inverse: a calendar date counts to a second exactly when it is the date of that second |
| `Calendar.IsValidIsCalendar` | date/src/date_time.rs:27-38 | The round-trip test accepts exactly the calendar's dates |
| `Calendar.OrderIsFieldOrder` | date/src/date_time.rs:242-246 | Comparing by seconds is comparing by fields, and equal only for equal dates |
| `Calendar.WrittenYearIsNeverRight` | date/src/date_time.rs:92 | The written line gives a wrong year for every second in range |
| `Calendar.NothingIsValidAsWritten` | date/src/date_time.rs:27-38 | With it the test accepts nothing |
| `HttpDate.Display` | date/src/date_time.rs:190-240 | Filling the template in place prints the preferred form |
| `HttpDate.PrintByPlace` | date/src/date_time.rs:190-240 | For every date, each weekday and month by its letters and each digit by its character code, at its place |
| `HttpDate.Rfc850ByPlace` | date/src/date_time.rs:329-385 | The same for the form with a two-digit year |
| `HttpDate.AsctimeByPlace` | date/src/date_time.rs:387-433 | The same for the form of the C library |
| `HttpDate.SampleDate` | date/src/date_time.rs:190-240 | The example date of RFC 9110: its seconds, its weekday and its three texts |
| `HttpDate.TwoDigits` | date/src/date_time.rs:264-273 | Reading two digits inverts writing them and accepts nothing else |
| `HttpDate.FourDigits` | date/src/date_time.rs:276-287 | The same for four |
| `HttpDate.ImfParses` | date/src/date_time.rs:289-327 | The parser of the preferred form accepts exactly what the printer prints, with its fields |
| `HttpDate.Rfc850Parses` | date/src/date_time.rs:329-385 | The parser of the two-digit-year form accepts exactly that form of the years 1970 to 2069, with any byte before the time |
| `HttpDate.AsctimeParses` | date/src/date_time.rs:387-433 | The parser of the C library's form accepts exactly that form, with a space or a zero before a small day |
| `HttpDate.ParsersAreDisjoint` | date/src/date_time.rs:178-180 | The parsers accept different lengths, so their order does not matter |
| `HttpDate.FromStrParses` | date/src/date_time.rs:169-188 | A text parses to a date exactly when it is ASCII, one of the texts of that date without the space around it, and the date is the calendar's |
| `HttpDate.PrintedDatesParse` | date/src/date_time.rs:169-240 | Printing any calendar date and parsing it, with any space around it, gives it back |
| `HttpDate.Rfc850DatesParse` | date/src/date_time.rs:329-385 | The same for the form with a two-digit year, for 1970 to 2069 |
| `HttpDate.AsctimeDatesParse` | date/src/date_time.rs:387-433 | The same for the form of the C library, with either padding |
| `HttpDate.Trimmed` | date/src/date_time.rs:177 | Trimming takes off all white space at both ends and nothing else |
| `HttpDate.SpaceByCode` | date/src/date_time.rs:177 | White space is the six ASCII characters of that kind |
| `HttpDate.WrittenParserRejects` | date/src/date_time.rs:291-350 | As written two parsers and the whole parser reject everything |
| `Buffers.RemainingCounts` | bytes/src/buf/chain.rs:54-56 | For any nesting the count is exact up to the largest machine word |
| `Buffers.ChunkIsPrefix` | bytes/src/buf/take.rs:48-56 | For any nesting the chunk is a prefix and empty only at the end |
| `Buffers.AdvanceDrops` | bytes/src/buf/chain.rs:66-81 | For any nesting advancing works exactly within the bytes left and drops them |
| `Buffers.Drain` | bytes/src/bytes_mut.rs:645-658 | The chunk loop terminates and copies everything |
| `Buffers.CopyToBytes` | bytes/src/buf/buf_impl.rs:332-344 | In each of its forms takes exactly the prefix, or fails exactly when it is too long |
| `Buffers.CopyFromChain` | bytes/src/buf/chain.rs:92-113 | The three branches of a chain agree with one sequence |
| `Buffers.Reader.CopyToSlice` | bytes/src/buf/buf_impl.rs:107-121 | Fills part of an array with the prefix over any chunks, touches nothing else, and reads nothing on failure |
| `Buffers.Reader.Next` | bytes/src/buf/iter.rs:34-44 | The first byte, or none exactly at the end |
| `Buffers.Reader.SizeHint` | bytes/src/buf/iter.rs:46-50 | Both bounds are the number of bytes iteration will still yield, exact up to the largest machine word |
| `Buffers.Reader.Collect` | bytes/src/buf/iter.rs:31-44 | Iteration yields all bytes in order and ends |
| `Buffers.Reader.GetFixed` | bytes/src/buf/buf_impl.rs:9-35 | The fast and the copying path give the value of the same bytes and the same remainder |
| `Buffers.Reader.GetUint` | bytes/src/buf/buf_impl.rs:264-271 | Up to eight bytes read through a field of zeros have their own value; fails exactly beyond eight or past the end |
| `Buffers.Reader.GetInt` | bytes/src/buf/buf_impl.rs:283-290 | The same, sign-extended; no bytes are a panic of the shift |
| `IntCodec.UintRoundTrip` | bytes/src/buf/buf_mut.rs:257-276 | Writing k bytes and reading them gives the value modulo 2^(8k), in both orders |
| `IntCodec.OrdersMirror` | bytes/src/buf/buf_impl.rs:36-62 | The two byte orders are mirror images |
| `IntCodec.DecodeByPlace` | bytes/src/buf/buf_impl.rs:9-62 | The first byte weighs most in the big order and least in the little one |
| `IntCodec.EncodeByPlace` | bytes/src/buf/buf_mut.rs:257-276 | The byte written at each place in both orders, as a quotient of the value |
| `IntCodec.ShiftBackKeepsLowBits` | bytes/src/buf/buf_impl.rs:65-69 | Shifting left and back reads the low bits as a signed number |
| `IntCodec.IntRoundTrip` | bytes/src/buf/buf_mut.rs:290-309 | A signed value comes back exactly when it fits the k bytes |
| `IntCodec.WrittenIntRoundTrip` | bytes/src/buf/buf_impl.rs:66 | With the written shift a fitting value comes back exactly when it is not negative (k up to 6), or fits 55 or 56 bits (k is 7 or 8) |
| `Sinks.FillTwice` | bytes/src/buf/chain.rs:135-152 | Writing in two parts is writing the whole |
| `Sinks.FillDelivers` | bytes/src/buf/limit.rs:46-64 | Exactly the data arrives, in order, and nothing written before is lost |
| `Sinks.RemainingMutCounts` | bytes/src/buf/chain.rs:121-125 | For any nesting the space left is exact up to the largest machine word |
| `Sinks.AdvanceFills` | bytes/src/buf/chain.rs:135-152 | Advancing over any chunks writes to the plain writer exactly the bytes that the space holds there |
| `Sinks.PokedIsHeld` | bytes/src/buf/limit.rs:50-64 | Data written to the start of the slice that is handed out is what the next advance takes, whichever leaf and bounds the nesting gives the slice |
| `Sinks.ChunkThenAdvance` | bytes/src/buf/chain.rs:127-152 | Writing to the slice and advancing over it is never refused and writes the data to the plain writer |
| `Sinks.ChunkMut` | bytes/src/buf/buf_mut.rs:642-655 | The slice handed out, by leaf and bounds; nothing written changes; it is empty only without space and fails exactly when the vector it comes to is full and cannot grow |
| `Sinks.Writer.Put` | bytes/src/buf/buf_mut.rs:34-55 | Over any chunks of reader and writer, through the slices: a prefix of the bytes left is written and no more, all of it on success; it panics unchanged when the counts say there is no space, else only at a vector that is full and cannot grow; past the largest machine word, where the counts stop, it fills the space and then loops forever |
| `Sinks.Writer.PutSlice` | bytes/src/buf/buf_mut.rs:59-74 | Over any chunks, a prefix of the slice is written and no more, all of it on success; without the space it fails and nothing changes, with the space it fails only at a vector that is full and cannot grow |
| `Sinks.Writer.PutBytes` | bytes/src/buf/buf_mut.rs:78-95 | The same for one byte repeated |
| `Sinks.RepeatIs` | bytes/src/buf/buf_mut.rs:78-95 | Every byte of the repetition is the given one |
| `Sinks.Writer.PutUint` | bytes/src/buf/buf_mut.rs:257-276 | Writes the chosen bytes of the value; beyond eight it fails and nothing changes, and otherwise as a slice does |
| `Sinks.Writer.PutInt` | bytes/src/buf/buf_mut.rs:290-309 | The same for a signed value |
| `Sinks.WrittenIntReadsBack` | bytes/src/buf/buf_impl.rs:283-290 | Through any writer, the bytes that arrived read back as the value exactly when it fits |
| `Sinks.WriteThenRead` | bytes/src/buf/buf_impl.rs:283-290 | An integer written through the slices of any sink and read back across chunks is the integer exactly when it fits; without the space nothing changes |
| `DebugPrint.Format` | bytes/src/fmt/debug.rs:11-33 | The loop prints the escapes of the bytes in order |
| `DebugPrint.EscapeByValue` | bytes/src/fmt/debug.rs:12-29 | The escape of every byte by value: the six letters, the printable bytes as themselves, two hexadecimal digits for the rest |
| `DebugPrint.DecodeEscaped` | bytes/src/fmt/debug.rs:11-33 | A decoder recovers every byte string from its printed form |
| `DebugPrint.PrintedApart` | bytes/src/fmt/debug.rs:11-33 | Distinct byte strings never print alike |
| `DebugPrint.EscapedIsPrintable` | bytes/src/fmt/debug.rs:24-29 | Everything printed is printable ASCII |
| `Stack.MaskRoundsDown` | coroutine/src/stack/sys_stack.rs:57 | Masking rounds down to a multiple of a power of two |
| `Stack.TotalIsRoundedUp` | coroutine/src/stack/sys_stack.rs:46-74 | The mapped size is the request, at least a page, rounded up to pages, plus the guard page; accepted exactly within the maximum |
| `Stack.AddressSpace.Allocate` | coroutine/src/stack/unix/mod.rs:56-94 | Every usable page may be read and written, the page below them may not be touched, and nothing else changes; after a refused guard page the whole mapping stays behind, and after any other failure nothing changed |
| `Stack.GuardedPages` | coroutine/src/stack/unix/mod.rs:56-94 | Page by page: what each page inside and outside the new region allows |
| `Stack.AddressSpace.NewStack` | coroutine/src/stack/mod.rs:21-25 | The words asked for, times eight and at least a page, are allocated; the capacity reported is at least that and exceeds it by less than a page |
| `Stack.AddressSpace.Release` | coroutine/src/stack/mod.rs:96-106 | Releases the usable pages and the guard page below them |
| `Stack.AllocateAndRelease` | coroutine/src/stack/mod.rs:96-106 | The released region is exactly the mapped one |

## Left out

- Memory orderings and fences: all machines are sequentially consistent.
- Allocation failure, capacity overflow of `Vec` in the byte containers, and the abort on a reference count beyond half the address space.
- Pointer comparisons are comparisons of allocation and offset; an allocation of no bytes also has an id.
- Which of the two results of a split goes on under the old id is the model's bookkeeping; the values are what is promised.
- Runs.Step: the class of a `BytesMut` made from a view, and the capacity a conversion or a growing vector ends up with, are some value within their bounds.
- `Bytes::from_owner` and its vtable, with the owner that `bytes/src/bytes.rs:776-782` never releases; `slice_ref` with the reversed comparison at `bytes/src/bytes.rs:183`.
- `BytesMut::resize`, `zeroed`, `clone`, `Extend` (which calls itself at `bytes/src/bytes_mut.rs:829`), formatting, comparison, hashing and borrowing of both containers.
- Promotion: one boxed `Bytes` and its clones; the tags of even and odd addresses are one flag.
- Join: one waiter; cancellation and the parking of coroutines.
- The lock stripes and the transmutation test at `coroutine/src/sync/mod.rs:36`; the lock-free path of `AtomicCell`; back-off.
- SeqLock.LoadsAreAtomic: a validated load requires fewer than 2^63 stores between its stamp and its validation, because stamps repeat after that.
- Dates before 1970, which the source refuses, and the thread that refreshes the current date.
- HttpDate.Display: requires fields that fit their digits, as all dates from the clock and from text have.
- The overriding forms of `put`, `put_slice` and `put_bytes` on slices and vectors, which skip the chunk loop; `chunks_vectored` (with `dst[..n]` at `bytes/src/buf/chain.rs:87`), `Reader`, `Writer`, `VecDeque`, `Cursor` and the float codecs.
- Nested readers and writers are values inside one mutable object, since each owns its inner ones; references to them from outside are not modelled.
- What `Stack::new` writes into the stack, the word above the top at `coroutine/src/stack/mod.rs:92`, and the used-size probe.
- Stack.AddressSpace.Allocate: where the mapping lands and whether the system refuses are parameters.
