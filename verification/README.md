# Verification of the backd daemon's core

The daemon takes a snapshot of directory trees, observes every file in them once a round, and logs what changed. This
project models four of its components in Dafny and proves what they keep, what they compute and where they do not do
what their documentation says.

* **The dynamic array** (`daemon/srcs/lib/array.c`). `ByteArray.Array` is a class over one byte buffer: elements of
  `eltSize` bytes are moved by overlapping block copies at offsets `eltSize * position`, the block copies are loops, and
  growth computes on 64-bit words. Every operation is proved equal to a function of `ArraySpec` on a plain sequence of
  elements; `ArrayDriver.Drive` lifts that to every run of operations, `ArrayMeaning` says position by position what
  those functions do, and `ArrayRuns` proves properties of runs.
* **The observer and its event logs** (`routine.c`, `fs_target.c`, `fs_target_event.c`, `fs_target_event_track.c`,
  the service loop in `loop.c`). `Daemons.Daemon` builds trees of `Targets.Target` objects and walks them with one path
  buffer that is extended and erased in place. `lstat`, the clock and the memory for an event are an arbitrary function
  of the number of the call, so every theorem holds for every sequence of answers. `Events` gives a log its meaning.
* **The cron parser** (`cron-parse.c`). `CronParser` is the parser with its moving position, eight-bit counters and five
  flag arrays; `CronSpec` says what it does with any string; `CronSyntax` defines well-formed strings and proves what the
  parser makes of them; `CronMeaning` says what they mean by the numbers written in them, with no eight-bit arithmetic,
  and exactly when the parser agrees; `CronLimits` says exactly when the flags are the documented ones; `CronExamples`
  works out single strings, the documented one among them; `CronRoundTrip` prints sets and reads them back.
* **The formatter and the integer parser** (`stringf.c`, `atoi.c`). `Format` generates digits backwards into fixed
  buffers and cuts the output off at a capacity; `Atoi` parses integers; together they make a round trip.

`CMachine` (64-bit words, block copies), `Chunks` (a buffer cut into elements), `CStrings` (NUL-terminated strings) and
`Numerals` (decimal and hexadecimal numerals) are shared.

## Main results

* Any run of array operations on the bytes ends in the state the same run gives on a sequence of elements; nothing
  wraps, an operation that reports failure changes nothing, and the data pointer and the capacity never change from the
  call that settles an array to the one that unsettles it (`Drive`, `StepKeeps`, `AdjustMakesRoom`, `SettledFromThenOn`).
* Every operation is also described without the function that specifies it: which element is where afterwards, which were
  destroyed in which order, when it fails, and how much room it makes (`GrowingMeans`, `RemovingMeans`, `InPlaceMeans`,
  `SlimMeans`, `ClaimMeans`, `FilterMeans`); appending leaves what pushing one by one leaves (`AppendIsPushes`).
* The capacities copied by growth add up to no more than the capacity gained, and the capacity is linear in the most
  bytes ever held (`CopyingIsAmortised`, `CapacityIsLinear`, `TotalCopyingIsLinear`).
* For every run, live plus destroyed elements plus those that left undestroyed are the ones put in plus what was
  destroyed or written instead (`RunBalances`). So live plus destroyed are those put in exactly when these two make up for
  each other, as in every run without wipes that do not start from 0 and without swaps of an element with itself; killing
  the array then destroys exactly what was put in (`ElementsAreConservedWhen`, `KilledArrayDestroysEverythingWhen`, `CarefulCallsLoseNothing`).
* The trees made at the start mirror the directories level by level: type, acknowledgement, and one child, in order and at
  its path, for every entry other than "." and ".." that is not refused (`AddRoot`, `WholeTreeMirrors`).
* A walk over a tree of any shape restores the path buffer, tracks every target of known type exactly once, children
  before their directory, under the joined path, and adds exactly one observation to each history (`Observe`,
  `VisitsEachKnownOnce`, `VisitedLastAtItsPath`, `Rounds`).
* A target's log is its observation history without the stutters, after any number of rounds, and the counters are the
  number of targets and of log entries (`LogIsDestutteredHistory`, `LogsAndCounters`).
* A well-formed cron string makes the parser run forever exactly when one of its fill loops has a non-empty range and
  step 0; otherwise the flags are the union of what its items set. An item sets the clamped progression of the numbers
  written in it exactly under a condition on those numbers, which numbers below 256 with steps from 1 to 196 always meet
  (`WellFormedStringsDenote`, `SetsWhatItDenotesWhen`, `StringsMeanWhatIsWritten`, `SmallStringsMeanWhatIsWritten`,
  `RoundTrip`).
* On any NUL-terminated string at all the parser ends if no number behind a slash is a multiple of 256 (`CheckEnds`).
* The formatter writes the first characters of the unbounded rendering and returns its full length, and what it writes
  for any 32-bit integer is parsed back (`Cpyf`, `Slcpyf`, `IntegerRoundTrip`). Every directive prints its argument, and
  everything else itself (`DirectivesPrint`, `OthersPrintThemselves`).

## Where the code and its documentation differ

The model follows the code.

* `array_wipe` runs the destructor on the elements from index 0, not from `start` (array.c:533). It destroys what it
  removes, whatever that is, exactly when `start` is 0 or nothing is removed (`WipeDestroysWhatItRemoves`).
* `array_swap_elems` of an element with itself sets it to zero (array.c:557-559); it exchanges exactly when the positions
  differ or the element is zero already (`SwapIsExchangeWhen`). These two operations are the only ones that can lose
  elements (`StepConservesWhen`).
* `array_wipe` compares the number of removed elements with the size, not `end` (array.c:525). For an `end` past the size
  the move stays within the live bytes exactly when the 64-bit offset of `end` wraps back into them and leaves room in
  front of it for what is removed, and so never while it does not wrap (`WipeMovesLiveBytesWhen`). Wiping an array of one
  element from 1 to 2 moves nearly the whole address space (`WipePastTheEnd`); another input makes the move start within
  the live bytes and write before the buffer (`WipeBeforeTheStart`). `Wipe` therefore requires `end` to be within the size.
* `array_concat` asks for room for its own size twice (array.c:452), which costs a factor of two in `CapacityIsLinear`.
* The guards of `array_adjust` let through requests whose alignment wraps to 0; they shrink the buffer to nothing exactly
  when the array is not settled and its doubled capacity is at most INT_MAX (`AdjustMakesRoomWhen`), as for an empty array
  of 64 bytes asked for SIZE_MAX more (`GrownToNothing`).
* `array_pull` is documented to take any offset from the end, but rejects `-size` (array.c:171-172), and nothing else that
  denotes a position (`PullRejectsMinusSize`).
* `cpyf` is documented to return the number of bytes written and returns the full length (stringf.c:179); these agree
  exactly when the whole rendering fits (`Cpyf`), and not for two characters into one (`ReturnsMoreThanWritten`).
* Numbers are read modulo 256, so `300` sets minute 44 where the written number, clamped, is 59 (`MinuteThreeHundred`).
  An item sets what is written exactly when its bounds and its step come to the same progression in eight bits and the
  loop counter does not wrap; a single number exactly when it is below 256 or its remainder is clamped too
  (`SetsWhatItDenotesWhen`).
* The cron documentation allows weekday 7 for Sunday; the parser clamps to 6 (cron-parse.c:200-201), so its treatment of 7
  as Sunday is never reached and `* * * * 7` sets Saturday (`SeventhDay`). Exactly which weekday items set their documented
  days is said for all written numbers (`WeekdaysAsDocumentedWhen`, `DayOfBigNumber`); with numbers below 256 it is the
  stars, the numbers below 7, and the ranges that are empty or do not wrap and miss 7 or have 0 anyway
  (`SmallWeekdaysAsDocumentedWhen`).
* Days of the month and months are documented to start from 1, but 0 can be set in two ways: a single 0 is not clamped,
  as in `* * 0` (`DayZero`), and a step above 196 can count down into 0, as in `* * * 5-9/251` (`MonthZero`). All flags are
  in their documented ranges exactly when no item does either (`KeepsMinimumWhen`, `FlagsInDocumentedRangeWhen`).
* Targets are observed under the paths they were created with exactly when their root has no directory part and is not
  the root "." with entries below it, or nothing is observed (`PathsAgreeExactlyWhen`).
* `sys_lstat_exec` reports success when `lstat` fails (fs_target.c:19-22); such a target gets the unknown type and is
  never observed (`FailedStatHidesTarget`, `UnknownIsNotVisited`).
* `atoi32` checks the result of `strtol` against the upper limit only (atoi.c:44); a smaller value is cut off when it is
  stored (`StoredUnchangedWhen`): "0b-" and 33 ones give 1 (`StoredCutOff`).

## Assumptions

* `size_t` and pointers have 64 bits; no object is larger than `PTRDIFF_MAX` bytes, and requests for more fail. Whether
  any other allocation succeeds is a parameter of each operation.
* Bytes passed to the array come from memory outside its own buffer, so they are passed as values.
* The element destructor is a ghost log of the elements it was called on.
* The clock, `lstat` and the memory for a log and an event are functions of the number of the `lstat` call; the fields of
  `struct stat` that are never compared are one field. The names and contents of directories are given (`Entry`).
* File type bits have their Linux values; the characters `isspace` accepts are those of the C locale.
* `strtol` is an arbitrary function; the round trip asks only that it reads "0" as zero.
* Negating the least 32-bit integer wraps around to itself, and the first byte of an `int` is its lowest one.
* A string argument ends at its first NUL.

## Model

| member | source | states |
|---|---|---|
| `CMachine.SafeToMulIsExact` | daemon/incs/array.h:188-194 | the division in the overflow guard accepts exactly the products that fit a `size_t` |
| `CMachine.SizeAlignRoundsUp` | daemon/srcs/lib/array.c:14-17 | the mask gives the least multiple of 8 not below its argument exactly when that does not exceed SIZE_MAX; the last seven sizes give 0 |
| `CMachine.Memmove` | daemon/srcs/lib/array.c:359-361 | an overlapping move leaves at the destination what was at the source before, and every other byte alone |
| `CMachine.Realloc` | daemon/srcs/lib/array.c:281-289 | the new block starts with the bytes of the old one, as far as both reach |
| `Chunks.CutSplice` | daemon/srcs/lib/array.c:417-424 | replacing bytes between element boundaries replaces exactly those elements |
| `Chunks.CutOfFlatten` | daemon/incs/array.h:231-232 | elements laid out one after the other are found again at their offsets |
| `ArraySpec.GuardsAreExact` | daemon/srcs/lib/array.c:247-256 | the guards accept exactly the requests that do not wrap; those the model leaves out are among the ones whose alignment wraps to 0 |
| `ArraySpec.AdjustMakesRoom` | daemon/srcs/lib/array.c:245-292 | success means the request fits; failure changes nothing; the elements never change; the capacity at least doubles if it changes, and only if not settled |
| `ArraySpec.AdjustMakesRoomWhen` | daemon/srcs/lib/array.c:247-286 | of the requests the guards let through, exactly those the model leaves out are unsafe: they shrink the buffer to nothing |
| `ArraySpec.GrownToNothing` | daemon/srcs/lib/array.c:247-286 | an input the guards admit that leaves a capacity of 0 |
| `ArraySpec.ReserveSucceedsWhen` | daemon/srcs/lib/array.c:258-286 | exactly when a request is met |
| `ArraySpec.PushKeptFilters` | daemon/srcs/lib/array.c:128-137 | pushing the accepted elements one by one leaves those that pass the test, in order |
| `ArrayMeaning.FilterMeans` | daemon/srcs/lib/array.c:128-137 | filtering nothing, one element and two parts, which leaves no other function |
| `ByteArray.Array.Create` | daemon/srcs/lib/array.c:39-60 | an empty array of the aligned capacity, or null exactly when the allocator refuses |
| `ByteArray.Array.SeizeBuffer` | daemon/srcs/lib/array.c:62-85 | the buffer's elements, owned and not settled |
| `ByteArray.Array.BorrowBuffer` | daemon/srcs/lib/array.c:87-110 | the buffer's elements, not owned and settled |
| `ByteArray.Array.Filter` | daemon/srcs/lib/array.c:112-144 | a new array of exactly the elements that pass, in order; null exactly when an allocation or a push fails |
| `ByteArray.Array.Pull` | daemon/srcs/lib/array.c:167-217 | a new settled array with the elements from start to end, for every admitted mix of negative and non-negative positions |
| `ByteArray.Array.Clear` | daemon/srcs/lib/array.c:219-230 | no elements are left, and the destructor was called on each once, from the last to the first |
| `ArrayRuns.ClearDestroysBackwards` | daemon/srcs/lib/array.c:224-226 | the k-th element destroyed is the k-th from the back |
| `ByteArray.Array.RunDestructorsDown` | daemon/srcs/lib/array.c:224-226 | the counter that wraps below zero visits every element once |
| `ByteArray.Array.Kill` | daemon/srcs/lib/array.c:232-243 | clears, and releases the buffer exactly when it is owned |
| `ByteArray.Array.Adjust` | daemon/srcs/lib/array.c:245-292 | the 64-bit computation meets the specification without wrapping; the data pointer changes only if the array is not settled |
| `ByteArray.Array.Reserve` | daemon/srcs/lib/array.c:258-291 | the capacity, the elements and the outcome after growth |
| `ByteArray.Array.Push` | daemon/srcs/lib/array.c:294-309 | the element is last, or nothing changed |
| `ByteArray.Array.Pop` | daemon/srcs/lib/array.c:311-327 | the last element is handed out, destroyed and gone |
| `ByteArray.Array.PushFront` | daemon/srcs/lib/array.c:329-332 | the element is first, or nothing changed |
| `ByteArray.Array.PopFront` | daemon/srcs/lib/array.c:334-344 | the first element is handed out, destroyed and gone |
| `ByteArray.Array.Insert` | daemon/srcs/lib/array.c:346-368 | the element is at the position and the later ones one further, or nothing changed |
| `ByteArray.Array.Tipex` | daemon/srcs/lib/array.c:370-377 | exactly the given bytes of the buffer are overwritten |
| `ByteArray.Array.Dup` | daemon/srcs/lib/array.c:379-395 | a new array with the same elements; null exactly when creating or growing it fails |
| `ByteArray.Array.Inject` | daemon/srcs/lib/array.c:397-427 | the elements of the block are at the position and the later ones behind them, or nothing changed |
| `ByteArray.Array.Append` | daemon/srcs/lib/array.c:429-444 | the elements of the block are last, or nothing changed |
| `ByteArray.Array.Concat` | daemon/srcs/lib/array.c:446-463 | the other array's elements are last, or nothing changed; another array is untouched, and an array can be concatenated with itself |
| `ByteArray.Array.Evict` | daemon/srcs/lib/array.c:501-519 | the element at the position is destroyed and gone, the others keep their order |
| `ByteArray.Array.Wipe` | daemon/srcs/lib/array.c:521-543 | the elements from start to end are gone; the destructor ran on as many elements from index 0 |
| `ByteArray.Array.SwapElems` | daemon/srcs/lib/array.c:545-561 | two elements exchanged byte by byte, one swapped with itself zeroed |
| `ByteArray.XorSwap` | daemon/srcs/lib/array.c:553-560 | the exclusive-or loop exchanges two blocks, zeroes a block exchanged with itself and changes no other byte |
| `ByteArray.Array.AppendFromCapacity` | daemon/srcs/lib/array.c:606-639 | elements already in the spare bytes are counted in exactly when that many fit |
| `ByteArray.Array.Slimcheck` | daemon/srcs/lib/array.c:648-673 | shrinks to the bytes in use when more than half is spare; the elements stay |
| `ByteArray.Array.Settle` | daemon/srcs/lib/array.c:675-680 | the flag is set and nothing else changes |
| `ByteArray.Array.Unsettle` | daemon/srcs/lib/array.c:682-688 | the flag is cleared and nothing else changes |
| `ArrayRuns.StepKeeps` | daemon/incs/array.h:208-221 | every operation keeps the array well formed; a refused one changes nothing; settled before and after means the same capacity |
| `ArrayMeaning.GrowingMeans` | daemon/srcs/lib/array.c:245-463 | for push, pushf, insert, inject, append and concat: where the new elements are and where the old ones went, exactly when it fails, and the capacity afterwards |
| `ArrayMeaning.RemovingMeans` | daemon/srcs/lib/array.c:219-543 | for pop, popf, evict, wipe and clear: which elements are gone, and which were destroyed in which order, if any |
| `ArrayMeaning.InPlaceMeans` | daemon/srcs/lib/array.c:545-688 | settle sets the flag, unsettle clears it, swap exchanges two elements or zeroes one, and nothing else changes |
| `ArrayMeaning.SlimMeans` | daemon/incs/array.h:256-260 | exactly when the array shrinks, and to what |
| `ArrayMeaning.SpareMeans` | daemon/srcs/lib/array.c:606-619 | as many elements fit as it says and not one more |
| `ArrayMeaning.ClaimMeans` | daemon/srcs/lib/array.c:628-639 | elements are claimed exactly when they fit in the capacity |
| `ArrayMeaning.NewArrayMeans` | daemon/srcs/lib/array.c:39-60 | a new array is empty, owned and not settled, with the least aligned capacity for what was asked |
| `ArrayMeaning.AppendIsPushes` | daemon/srcs/lib/array.c:429-463 | appending or concatenating a block leaves the elements that pushing each of its elements in order leaves |
| `ArrayDriver.Drive` | daemon/srcs/lib/array.c:219-688 | any run on the bytes ends in the state the same run gives on the sequence; a borrowed array, and one that is settled from the first call on, keeps its data pointer |
| `ArrayRuns.BorrowedStaysInPlace` | daemon/incs/array.h:248-254 | over every run a borrowed array stays settled and borrowed, and its buffer keeps its size and is never copied; `Drive` says the same of the data pointer |
| `ArrayRuns.SettledStaysInPlace` | daemon/incs/array.h:262-266 | until it is unsettled, no run changes the capacity of a settled array or copies its buffer |
| `ArrayMeaning.SettlingFixesTheBuffer` | daemon/incs/array.h:262-266 | array_settle, whatever the state before it, fixes the capacity and the buffer for the rest of a run that does not unsettle |
| `ArrayMeaning.SettledFromThenOn` | daemon/incs/array.h:214-217 | the same from the middle of any run |
| `ArrayMeaning.LastFlagCounts` | daemon/srcs/lib/array.c:675-688 | over any run, the array is settled, unsettled or empty after its last call settled, unsettled or cleared it |
| `ArrayRuns.CopyingIsAmortised` | daemon/srcs/lib/array.c:266-289 | over every run without array_slimcheck, all capacities copied add up to at most the capacity gained |
| `ArrayRuns.CapacityIsLinear` | daemon/srcs/lib/array.c:266-279 | the capacity is at most the initial one, 64, or twice the most bytes ever held plus 7; four times with array_concat |
| `ArrayRuns.TotalCopyingIsLinear` | daemon/srcs/lib/array.c:245-309 | total copying is linear in the most bytes ever held, with one more factor of two for array_concat |
| `ArrayRuns.StepConservesWhen` | daemon/srcs/lib/array.c:501-561 | an operation keeps live plus destroyed elements in balance exactly when it is no wipe that destroys other elements than it removes and no swap of a non-zero element with itself |
| `ArrayRuns.CarefulCallsLoseNothing` | daemon/srcs/lib/array.c:521-561 | wipes from 0 and swaps of different positions leave nothing undestroyed that is not made up for, over every run |
| `ArrayRuns.RunBalances` | daemon/srcs/lib/array.c:219-561 | the account of every run: live, destroyed and undestroyed elements are those there before, put in, and destroyed or written instead |
| `ArrayRuns.ElementsAreConservedWhen` | daemon/srcs/lib/array.c:219-243 | live plus destroyed elements are those there before plus those put in exactly when what left undestroyed is made up for, over every run |
| `ArrayRuns.KilledArrayDestroysEverythingWhen` | daemon/srcs/lib/array.c:232-243 | a run from an empty array that ends in killing it destroys exactly what was put in, under exactly that condition |
| `ArrayRuns.NothingDestroyedWithoutDestructor` | daemon/srcs/lib/array.c:324-326 | without a destructor nothing is destroyed, over every run |
| `ArrayRuns.WipeDestroysWhatItRemoves` | daemon/srcs/lib/array.c:529-536 | array_wipe destroys the elements it removes, whatever they are, exactly when start is 0 or nothing is removed |
| `ArrayRuns.WipeMovesLiveBytesWhen` | daemon/srcs/lib/array.c:524-540 | under the guard, exactly when the bytes read, and the bytes read and written, are live ones; if the offset of end does not wrap, exactly when end is at most the size |
| `ArrayRuns.WipePastTheEnd` | daemon/srcs/lib/array.c:524-540 | one element of eight bytes wiped from 1 to 2: the guard agrees, and SIZE_MAX - 7 bytes are to be moved |
| `ArrayRuns.WipeFarPastTheEnd` | daemon/srcs/lib/array.c:524-540 | an input the guard admits for which the number of bytes wraps to 0 |
| `ArrayRuns.WipeBeforeTheStart` | daemon/srcs/lib/array.c:524-540 | an input the guard admits for which eight live bytes are written before the buffer |
| `ArrayRuns.SwapIsExchangeWhen` | daemon/srcs/lib/array.c:556-560 | array_swap_elems exchanges exactly when the positions differ or the element is all zeros |
| `ArrayRuns.InjectThenWipe` | daemon/srcs/lib/array.c:397-427 | array_wipe of what array_inject put in restores the elements; it destroys the first elements of the array, which are the injected ones exactly when they agree |
| `ArrayRuns.InsertThenEvict` | daemon/srcs/lib/array.c:346-368 | array_evict of what array_insert put in restores the elements and destroys that element |
| `ArrayRuns.PushThenPop` | daemon/srcs/lib/array.c:294-327 | array_pop after array_push restores the elements and destroys that element |
| `ArrayRuns.OneIsMany` | daemon/srcs/lib/array.c:429-444 | array_insert is array_inject of one element; array_push is array_append of one, and array_insert at the end |
| `ArrayRuns.SwapTwice` | daemon/srcs/lib/array.c:545-561 | swapping two different elements twice changes nothing |
| `ArrayRuns.PullWalks` | daemon/incs/array.h:308-323 | element k of a pull is the one k steps from the start towards the end, and their number is the distance plus one |
| `ArrayRuns.PullRejectsMinusSize` | daemon/srcs/lib/array.c:171-182 | every admitted position denotes an element, and the only denoting one not admitted is -size |
| `ArrayRuns.PullBackwardsTwice` | daemon/incs/array.h:308-323 | pulling a whole array backwards twice gives it back |
| `Paths.PathBuffer.Set` | daemon/srcs/fs/routine.c:19-34 | the buffer holds the path joined with the name by a slash, or the name alone |
| `Paths.PathBuffer.Unset` | daemon/srcs/fs/routine.c:36-51 | the buffer holds the path without its last name and slash |
| `Paths.PathBuffer.EraseBackwards` | daemon/srcs/fs/routine.c:47-49 | the counter that runs through zero erases the name and its slash, and nothing before them |
| `Paths.LeaveUndoesEnter` | daemon/srcs/fs/routine.c:71-99 | popping a name undoes pushing it, for every path and name |
| `Daemons.Daemon.Observe` | daemon/srcs/fs/routine.c:71-99 | the walk restores the path, makes exactly the visits of its tree in order, and records exactly their observations |
| `Daemons.Daemon.ObserveEach` | daemon/srcs/fs/routine.c:53-69 | the same for all children of a directory one after the other |
| `Targets.VisitsEachKnownOnce` | daemon/srcs/fs/routine.c:77-94 | a walk visits every target of known type exactly once and no other |
| `Targets.SubtreeIsOneStretch` | daemon/srcs/fs/routine.c:78-89 | the visits of every subtree are one stretch of the walk, under the path joined from the names of its ancestors |
| `Targets.VisitedLastAtItsPath` | daemon/srcs/fs/routine.c:71-99 | a target of known type comes last among the visits of its tree, under the names that lead to it joined by slashes |
| `Targets.ChildrenInOrder` | daemon/srcs/fs/routine.c:53-69 | children are visited in the order they have in their directory |
| `Targets.ObservedPathLosesDirectory` | daemon/srcs/fs/fs_target.c:70-83 | for a root other than ".", creation path and observed path differ by the directory part of the root, for every descendant |
| `Targets.ObservedPathUnderDot` | daemon/srcs/fs/fs_target.c:143-151 | for the root ".", every descendant is observed under "./" and its creation path |
| `Targets.PathsAgreeExactlyWhen` | daemon/srcs/fs/fs_target.c:205-211 | exactly when every target is observed under the path it was created with, if any is observed |
| `Paths.AttachChars` | daemon/srcs/fs/fs_target.c:127-158 | the buffer holds the directory path, a slash where one is missing and the name; the directory "." is left out |
| `Paths.AttachIs` | daemon/srcs/fs/fs_target.c:143-155 | "." and an empty directory path are left out, a slash at the end is kept, and one is added where it is missing |
| `Paths.BasenameOfTail` | daemon/srcs/fs/fs_target.c:77-77 | the name behind a directory part is the base name |
| `Daemons.Daemon.Create` | daemon/srcs/fs/fs_target.c:218-240 | the new tree is the one the answers of lstat and the listing describe, made along attached paths of fresh objects, and counted |
| `Daemons.Daemon.HandleChildren` | daemon/srcs/fs/fs_target.c:186-216 | the children are those the listing describes, in order |
| `Daemons.ChildrenMirrorListing` | daemon/srcs/fs/fs_target.c:168-216 | when nothing fails there is one child for every entry but "." and "..", by name and in order |
| `Daemons.WholeTreeMirrors` | daemon/srcs/fs/fs_target.c:168-240 | the whole tree mirrors the listing whatever fails: types, acknowledgements, names, order and paths, with nothing missing that was not refused |
| `Daemons.DirectoryHasItsEntries` | daemon/srcs/fs/fs_target.c:234-236 | when nothing fails, a target has its entries as children exactly when its mode says directory |
| `Daemons.NothingRefused` | daemon/srcs/fs/fs_target.c:225-232 | when nothing fails, nothing is refused |
| `Targets.FileTypes` | daemon/incs/fs_target.h:20-29 | each type bits value gives its type, whatever the permissions |
| `Daemons.FailedStatHidesTarget` | daemon/srcs/fs/fs_target.c:14-25 | a target whose first lstat failed has the unknown type and no children |
| `Daemons.UnknownIsNotVisited` | daemon/srcs/fs/routine.c:91-94 | no walk visits such a target |
| `Daemons.Daemon.AckEvent` | daemon/srcs/fs/events/fs_target_event.c:35-53 | the acknowledging event of a second lstat, exactly when that succeeds and both the log and the event find memory; the event is counted as soon as there is a log |
| `Daemons.Daemon.DetectEvent` | daemon/srcs/fs/events/fs_target_event_track.c:106-157 | one lstat; the history grows by its observation, the log follows, and the result says whether an event was logged, lost or not due |
| `Daemons.Daemon.EventTrack` | daemon/srcs/fs/events/fs_target_event_track.c:171-202 | records the observation of this target under the current path |
| `Events.ScanStat` | daemon/srcs/fs/events/fs_target_event_track.c:81-104 | the backwards scan gives nothing exactly when six fields agree, OPEN exactly when only the access time differs, MODIFY otherwise |
| `Events.CmpStat` | daemon/srcs/fs/events/fs_target_event_track.c:88-103 | nothing exactly when the six fields agree |
| `Events.Masks` | daemon/incs/fs_target.h:48-54 | the event masks are the documented bits |
| `Events.LogIsDestutteredHistory` | daemon/srcs/fs/events/fs_target_event_track.c:106-157 | the log is the acknowledgement and the history of observations without those that repeat the one before |
| `Events.LatestAgrees` | daemon/srcs/fs/events/fs_target_event.c:55-62 | the latest entry agrees with the latest observation on the six fields |
| `Events.OnlyFirstAcknowledges` | daemon/srcs/fs/events/fs_target_event.c:43-45 | every later entry is MODIFY, OPEN, FAIL or DELETE, and the last two carry an all-zero stat |
| `Events.RepeatedObservation` | daemon/srcs/fs/events/fs_target_event_track.c:128-144 | observing an unchanged file again logs nothing; a failure is logged every time |
| `Events.LogGrowsByAtMostOne` | daemon/srcs/fs/events/fs_target_event_track.c:146-153 | no history of observations makes more entries than observations, whatever pushes fail |
| `Daemons.Daemon.AddRoot` | daemon/srcs/loop.c:30-50 | a root is added with its tree, which mirrors what lies at its path, or skipped because it was refused |
| `Daemons.Daemon.Round` | daemon/srcs/loop.c:115-130 | a round observes every root from the empty path and leaves it empty |
| `Daemons.Daemon.Rounds` | daemon/srcs/loop.c:115-130 | n rounds make n times the visits of one, and add exactly their observations to the histories; every target of known type has n more |
| `Daemons.Daemon.LogsAndCounters` | daemon/incs/fs_target.h:98-111 | n_target is the number of nodes, n_events the sum of the log lengths, and every log its history without stutters |
| `CronParser.FillLoop` | daemon/srcs/lib/cron-parse.c:299-301 | the eight-bit loop ends and sets exactly the progression, or for steps above 196 the values it counts down through |
| `CronSpec.FilledIsProgressionWhen` | daemon/srcs/lib/cron-parse.c:331-333 | the loop sets the progression it denotes exactly when the range is empty or from + step fits eight bits |
| `CronParser.StepZeroNeverEnds` | daemon/srcs/lib/cron-parse.c:299-301 | with step 0 the loop condition holds after any number of turns |
| `CronParser.ParseNumber` | daemon/srcs/lib/cron-parse.c:349-363 | the decimal value modulo 256 and the position behind the digits |
| `CronParser.ParseElement` | daemon/srcs/lib/cron-parse.c:279-340 | the flags of one element are added, and the position is the next or NULL |
| `CronParser.ParseList` | daemon/srcs/lib/cron-parse.c:233-268 | the flags of a list are added, a missing list setting the full range; NULL is passed through |
| `CronParser.Cron.ParseEntry` | daemon/srcs/lib/cron-parse.c:193-222 | five lists each add to their own array, and a failed list stops the rest |
| `CronParser.Cron.Check` | daemon/srcs/lib/cron-parse.c:147-186 | false is returned, and the arrays are what the string says, or untouched for a null or empty string; required is that no step is zero, or that the parser ends |
| `CronSpec.SpacesAre` | daemon/srcs/lib/cron-parse.c:155-157 | which characters are skipped as white space |
| `CronSpec.CheckEnds` | daemon/srcs/lib/cron-parse.c:147-363 | for every NUL-terminated string, the parser ends if no number behind a slash is zero modulo 256 |
| `CronSpec.Entry` | daemon/srcs/lib/cron-parse.c:193-222 | every flag is within its range, no position passes the terminator, and an entry of a non-empty remainder consumes a character or stops |
| `CronMeaning.SetsWhatItDenotesWhen` | daemon/srcs/lib/cron-parse.c:302-334 | an item sets the clamped progression of its written numbers exactly when they come to the same in eight bits and the counter does not wrap |
| `CronMeaning.SmallItemsAsWritten` | daemon/srcs/lib/cron-parse.c:299-301 | numbers below 256 and steps from 1 to 196 are read as written |
| `CronMeaning.SmallNumbersAsWrittenWhen` | daemon/srcs/lib/cron-parse.c:302-334 | with numbers below 256, an item is read as written exactly when its counter does not wrap |
| `CronMeaning.SameValuesWhen` | daemon/srcs/lib/cron-parse.c:331-333 | exactly when two clamped progressions are the same |
| `CronMeaning.DenotesIs` | daemon/srcs/lib/cron-parse.c:321-329 | every step-th written value between the bounds, a start past the upper one counting as that one, is the progression over the clamped bounds |
| `CronSyntax.FieldParses` | daemon/srcs/lib/cron-parse.c:245-259 | a well-formed field is parsed to its end and sets the union of its elements, or loops forever exactly when an element does |
| `CronSyntax.LineParses` | daemon/srcs/lib/cron-parse.c:193-222 | a well-formed entry sets its five fields, a missing one the full range, or loops forever exactly when a field does |
| `CronSyntax.WellFormedStringsDenote` | daemon/srcs/lib/cron-parse.c:147-186 | a well-formed string ends exactly when all its fill loops do, and then sets the union of its entries |
| `CronMeaning.FieldMeaningIs` | daemon/srcs/lib/cron-parse.c:279-340 | a field of items read as written sets exactly the union of the clamped progressions of its elements |
| `CronMeaning.StringsMeanWhatIsWritten` | daemon/srcs/lib/cron-parse.c:147-363 | when all items are read as written, the flags are the union over all entries and elements of the clamped progressions of the written numbers |
| `CronMeaning.SmallStringsMeanWhatIsWritten` | daemon/srcs/lib/cron-parse.c:147-363 | the same for all well-formed strings with numbers below 256 and steps from 1 to 196 |
| `CronLimits.KeepsMinimumWhen` | daemon/srcs/lib/cron-parse.c:291-334 | exactly when an item of a field that starts from 1 sets nothing below 1 |
| `CronLimits.FlagsInDocumentedRangeWhen` | daemon/srcs/lib/cron-parse.c:86-90 | all flags of a well-formed string are in their documented ranges exactly when every day and month item keeps the minimum |
| `CronLimits.DayZero` | daemon/srcs/lib/cron-parse.c:304-309 | `* * 0` sets day 0 |
| `CronLimits.MonthZero` | daemon/srcs/lib/cron-parse.c:331-333 | `* * * 5-9/251` sets months 5 and 0 |
| `CronLimits.MinuteThreeHundred` | daemon/srcs/lib/cron-parse.c:349-363 | `300` sets minute 44 and denotes 59 |
| `CronLimits.WeekdaysAsDocumentedWhen` | daemon/srcs/lib/cron-parse.c:54-62 | exactly when a weekday item sets the days that its written numbers, with 7 as Sunday, are documented to mean |
| `CronLimits.SmallWeekdaysAsDocumentedWhen` | daemon/srcs/lib/cron-parse.c:54-62 | the same condition, spelled out for numbers below 256 |
| `CronLimits.DayOfBigNumber` | daemon/srcs/lib/cron-parse.c:349-363 | the weekday 257 sets Monday |
| `CronLimits.StringDaysAsDocumented` | daemon/srcs/lib/cron-parse.c:54-62 | the weekdays of a well-formed string whose items all do so are the documented ones |
| `CronLimits.SeventhDay` | daemon/srcs/lib/cron-parse.c:200-201 | `* * * * 7` sets Saturday and is documented to mean Sunday |
| `CronRoundTrip.RoundTrip` | daemon/srcs/lib/cron-parse.c:147-363 | any five non-empty sets in range, printed as decimal lists and checked, come back exactly |
| `CronExamples.DocumentedExample` | daemon/srcs/lib/cron-parse.c:50-65 | the documented string with a second entry sets the documented minutes, hours, days, months and weekdays |
| `CronExamples.StarSetsEverything` | daemon/srcs/lib/cron-parse.c:193-201 | `*` sets minutes 0 to 59, hours 0 to 23, days 1 to 31, months 1 to 12 and weekdays 0 to 6 |
| `CronExamples.StopsAtNonsense` | daemon/srcs/lib/cron-parse.c:335-337 | `5 x 7` sets minute 5 and nothing else |
| `CronExamples.JumpsOverOneCharacter` | daemon/srcs/lib/cron-parse.c:257-259 | a character that belongs to nothing is jumped over behind a list |
| `Format.IoBuf.Write` | daemon/srcs/lib/stringf.c:11-24 | the buffer holds as much of the whole output as fits, and written plus discarded is its full length |
| `Format.PutChr` | daemon/srcs/lib/stringf.c:26-39 | a printable character, or a backslash and two hexadecimal digits of its low byte |
| `Format.PutHex` | daemon/srcs/lib/stringf.c:41-60 | the shortest hexadecimal numeral, within its buffer |
| `Format.PutInt` | daemon/srcs/lib/stringf.c:62-89 | the shortest decimal numeral with its sign, for every 32-bit integer, within its buffer |
| `Format.PutPtr` | daemon/srcs/lib/stringf.c:91-113 | the prefixed hexadecimal numeral, within its buffer |
| `Format.PtrFillsItsBuffer` | daemon/srcs/lib/stringf.c:91-113 | the largest pointer needs all 18 bytes |
| `Format.DecimalDigits` | daemon/srcs/lib/stringf.c:80-83 | the digits written backwards are the numeral, and there are at most ten |
| `Format.HexDigits` | daemon/srcs/lib/stringf.c:104-107 | the digits written backwards are the numeral, and no more than the room allows |
| `Numerals.ValueOfDecimal` | daemon/srcs/lib/stringf.c:80-83 | the decimal numeral denotes its number |
| `Numerals.ValueOfHex` | daemon/srcs/lib/stringf.c:54-57 | the hexadecimal numeral denotes its number |
| `Numerals.UsualDigits` | daemon/srcs/lib/stringf.c:55-55 | the digits are 0 to 9 and a to f, the leading one first |
| `Format.FormatField` | daemon/srcs/lib/stringf.c:125-144 | the text of the next argument, or a percent sign for an unknown directive |
| `Format.FormatStr` | daemon/srcs/lib/stringf.c:146-163 | the output grows by the rendering of the format and its arguments |
| `Format.DirectivesPrint` | daemon/srcs/lib/stringf.c:125-141 | %d, %s, %c, %x and %p print their argument: the string, "(null)", the character, or digits that read back to it |
| `Format.ArgPrints` | daemon/srcs/lib/stringf.c:26-123 | the same for the text of any argument, the escape of %c reading back to the low byte |
| `Format.OthersPrintThemselves` | daemon/srcs/lib/stringf.c:143-154 | all text without a directive in it is printed as it stands, percent signs included |
| `Format.Cpyf` | daemon/srcs/lib/stringf.c:165-180 | exactly the first characters of the unbounded rendering, the rest of the buffer untouched, and the full length, which is the number written exactly when all of it fits |
| `Format.ReturnsMoreThanWritten` | daemon/incs/stringf.h:31-43 | two characters into room for one |
| `Format.Slcpyf` | daemon/srcs/lib/stringf.c:200-218 | the same one character shorter and terminated, unless there is no room at all; the rest of the buffer untouched |
| `Format.SlcpyfTerminates` | daemon/incs/stringf.h:58-68 | what slcpyf leaves is a C string with the first characters of the rendering |
| `Format.RenderHasNoNul` | daemon/srcs/lib/stringf.c:146-163 | nothing that is rendered has a NUL in it |
| `Format.SmallerIsPrefix` | daemon/incs/stringf.h:31-43 | what cpyf, or slcpyf, leaves at a smaller capacity is a prefix of what it leaves at a larger one |
| `Atoi.Atoi32` | daemon/srcs/lib/atoi.c:10-65 | the result, for every string and every answer of strtol |
| `Atoi.OtherCases` | daemon/srcs/lib/atoi.c:18-46 | no digit means the string itself, and a leading zero strtol in base 16, 2 or 8, with its position, or null |
| `Atoi.DecimalLoop` | daemon/srcs/lib/atoi.c:49-56 | the loop succeeds, at the end of the digits, exactly when the whole number is within the limit; otherwise it stops behind the first digit that takes it past |
| `Atoi.DecimalsAreExact` | daemon/srcs/lib/atoi.c:48-64 | without a leading zero, the written number is stored exactly when it is a 32-bit integer |
| `Atoi.StoredUnchangedWhen` | daemon/srcs/lib/atoi.c:44-62 | exactly when a value that passes the check is stored unchanged |
| `Atoi.StoredCutOff` | daemon/srcs/lib/atoi.c:33-62 | "0b-" and 33 ones pass the check and are stored as 1 |
| `Atoi.IntegerRoundTrip` | daemon/srcs/lib/atoi.c:10-65 | what the formatter writes for any 32-bit integer is parsed back, up to the terminator |

## Left out

- ByteArray.Array.Adjust: requests that would be aligned to 0 bytes are excluded, because the meaning of `realloc` to 0 bytes is up to the C library; `AdjustMakesRoomWhen` shows that every other request is covered.
- ByteArray.Array.Slimcheck: an empty array that would be shrunk is excluded, because the meaning of `realloc` to 0 bytes is up to the C library.
- ByteArray.Array.Wipe: `end` must be within the size, which the source's guard does not check; `WipeMovesLiveBytesWhen` says what happens past it.
- ByteArray.Array.Concat: concatenating two arrays that share one buffer is excluded.
- ByteArray.Array.Push: source bytes inside the array's own buffer are excluded, here and in `Insert`, `Inject` and `Append`.
- Daemons.Daemon.Create: a root path is not empty and has no slash at its end, since `basename` may change such a path; running out of memory for a target, its name or its child array, and directories that do not open, are not modelled, here and in `HandleChildren`.
- CronLimits.StringDaysAsDocumented: states one direction for whole strings, because one item may set by chance what another one misses; `WeekdaysAsDocumentedWhen` is exact for each item.
- Daemons.Daemon.Observe: every joined path must fit the 1024-byte buffer, which the source does not check.
- Daemons.Daemon.AddRoot: at most 64 roots, the size of the source's table.
- Daemons.Daemon.LogsAndCounters: the counters are unbounded, and the equation for events is stated for runs in which every event found memory.
- Events.LogIsDestutteredHistory: stated for histories in which every event found memory; `LogGrowsByAtMostOne` holds for all of them.
- CronParser.Cron.Check: requires that no fill loop runs forever, for which it is enough that no step is zero; `WellFormedStringsDenote` and `StepZeroNeverEnds` say when one does.
- Format.FormatStr: the arguments must be of the types the format asks for, as with every variadic function in C.
- The event and child arrays of a target are sequences, and an event has no path, which in the source points into the shared buffer or to freed memory.
- `array_extract`, `array_swap` and the getters of array.c would add only easy members; the `array_find` family is declared but not implemented.
- `scpyf`, `ssavef` and `fputstr` use the same buffer with other capacities.
- Freeing of targets (`fs_target_dealloc`, `service_deinit`), signals, `spin` and everything that prints.
- `dynstr.c`, `cmp.c`, `fs.c`, `boot.c`, `logging.c`, `time.c`, `perf.c`, `args.c` and `main.c`.
