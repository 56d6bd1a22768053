# A Dafny model of CzyNetFrame

This project models, in Dafny 4.11, the parts of CzyNetFrame (a C++ network library) that carry the most
arithmetic, state and interleaving, and proves what they compute and keep. `dafny verify dfyconfig.toml`
checks all of it.

| file | models |
|---|---|
| `CppArithmetic.dfy` | C++ division, remainder and the cast to `int` |
| `Calendar.dfy` | `src/base/Date.cc`: Julian day numbers and their inverse, against a calendar that knows only month lengths and leap years |
| `CivilTime.dfy` | `BreakTime`, `fillHMS` and `fromUtcTime` of `src/base/TimeZone.cc` |
| `TimeZones.dfy` | the transition table of `src/base/TimeZone.cc`: both lookups, and how far they invert each other |
| `TzFile.dfy` | the TZif reader of `src/base/TimeZone.cc`, against the file layout of sections 3.1 and 3.2 of RFC 8536 |
| `NetworkOrder.dfy`, `ByteBuffer.dfy`, `MixedIntegers.dfy` | `src/net/Endian.h`, `src/net/Buffer.h`, `src/net/Buffer.cc` |
| `ConnectionSteps.dfy`, `Connection.dfy` | `src/net/TcpConnection.cc` with the interests and the poller index of its channel (`src/net/Channel.cc`, `src/net/EpollPoller.cc`), as steps on a value and as the class that performs them |
| `ConnectionNames.dfy`, `TcpServers.dfy`, `Server.dfy` | `src/net/TcpServer.cc`, and the whole server as a state machine over all interleavings |
| `BoundedQueue.dfy` | `src/base/BoundedBlockQueue.h`: the ring, and the monitor with its two condition variables |
| `IntegerText.dfy`, `LogBuffer.dfy` | `src/base/LogStream.cc`, `src/base/LogStream.h` |

## How the code is read

- Code that updates state in place is a class or a method with loops, proved against functions of its
  inputs or old state; expressions are functions. Run-level results are about those functions.
- Integers are unbounded; where the width of a C++ type decides the result it is written out: truncating
  division and the casts in `BreakTime`, the overflow range of both calendar formulas, `ssize_t` stored in
  `size_t` in the connection, the sign conversions of network-order integers.
- A `std::vector<char>` is an array that is replaced when the vector grows. `std::copy`, `std::reverse`
  and `std::upper_bound` are written out as their algorithms.
- An exception is a `Thrown` result. An `assert` of the code is a precondition where a caller has to meet
  it and an `assert` or a theorem where the code has to. The build is a debug build (CMakeLists.txt:6), so
  asserts are on: where one can fail the program stops, no run goes on from there, and a theorem says
  exactly when that is.
- An event loop is a first-in first-out queue of tasks. `runInLoop` acts at once in the loop's own thread
  and queues otherwise. Each function body of a connection or of the server is one atomic step; what a
  user callback calls is a step of its own. System calls are parameters: the number of bytes a `write`
  took, the bytes a `readv` delivered, the bytes of a file. The loop chosen for a connection is arbitrary,
  and so is the initial value of `m_reading`, which the constructor leaves unset.

## Where the code does less than its names or comments say

- Before 1 March -4800 the Julian day formula is a day late, except in March-based leap years; the last
  day before that date shares its number with it, and the inverse yields no valid date below day -32044
  (`FormulaCountsDays`, `DayBeforeEpochCollides`, `InverseMeetsFormula`).
- A local time lookup does not examine the first and the last transition for repeated times; at the first
  transition a skipped time moves forward for either reading (`ResolveRecoversInstant`, `ResolveMovesGap`).
- Files of version 3 and later are read as version 1; only the version byte `2` leads to the second block.
- A failed `write` is never handled: stored in a `size_t` it fails the assert that follows; a failed read
  is delivered as a message (`SendAssertMeansSuccess`, `RetrieveAssertMeansSuccess`, `FailedReadIsMessage`).
- `shutDown` shuts the write side only while output is pending, and never once it has drained
  (`ShutdownOnlyCutsPending`).
- `handleClose` leaves the channel's interests on, so a second end of file, reported while the removal is
  waiting or done, fails its assert (`CloseAssertHoldsUntilRemoval`, `CloseAssertCanFail`).
- No connection that was closed is ever destroyed: `connectionDestory` removes the channel without
  disabling it first. While an interest is left the assert on Channel.cc:42 fails (`RemoveAssertFails`);
  when none is left the poller has taken the channel out already, and the assert on EpollPoller.cc:67
  fails (`PollerAssertFails`). `DestructionNeverCompletes` says which, in every reachable state;
  `DestructionCompletes` says which connections could be destroyed.
- Dates are computed in `int`: the round trips hold for days -536902956 to 536838867 and the code overflows
  outside them (`InverseFitsInt`, `BreakTimeFitsInt`).
- A `BoundedBlockQueue` of one slot is empty and full at once and stalls for good (`StallsOnlyWithOneSlot`).

## Model

| member | source | states |
|---|---|---|
| Calendar.FormulaCountsDays | src/base/Date.cc:11-18 | the closed formula equals the day count by the 4/100/400 rule exactly when the date is not before 1 March -4800 or lies in a March-based leap year; otherwise it is one too many |
| Calendar.NextDayAddsOne | src/base/Date.cc:11-18 | from the epoch on, the next calendar day has the next number |
| Calendar.FormulaOrdersDates | src/base/Date.cc:11-18 | numbers compare as dates do, and different valid dates have different numbers |
| Calendar.DaysBeforeYearClosed | src/base/Date.cc:15-17 | the recursive count of days before a year equals 365 per year plus the leap years by division, in both directions from -4800 |
| Calendar.SplitIsSound | src/base/Date.cc:20-27 | each intermediate value of the inverse is a whole number of centuries, years and months with a remainder inside them, the 366th day only in leap years |
| Calendar.InverseMeetsFormula | src/base/Date.cc:20-33 | the inverse yields a valid date exactly for numbers from -32044 on, and then the one with that number |
| Calendar.FormulaMeetsInverse | src/base/Date.cc:11-33 | a valid date survives the trip through its number exactly when it is not before the epoch |
| Calendar.DayBeforeEpochCollides | src/base/Date.cc:11-18 | 29 February -4800 has the number of 1 March -4800 |
| Calendar.InverseFitsInt | src/base/Date.cc:20-33 | no intermediate of the inverse overflows a 32-bit int exactly for days -536902956 to 536838867 |
| Calendar.FormulaFitsInt | src/base/Date.cc:11-18 | for a valid date with a number in that range no partial sum of the formula overflows either |
| CppArithmetic.ToInt | src/base/TimeZone.cc:288-289 | the cast keeps the value modulo 2^32 and yields an int, the same one if it fits |
| CivilTime.BreakTimeRoundsDown | src/base/TimeZone.cc:285-304 | truncating division with its correction amounts to rounding down, for negative seconds too |
| CivilTime.BreakTimeFitsInt | src/base/TimeZone.cc:285-304 | no int overflows on the way through `BreakTime` exactly for instants on days -536902956 to 536838867 |
| CivilTime.InstantRoundTrip | src/base/TimeZone.cc:285-304 | for all those instants hour, minute and second are in range; the date is valid exactly from the calendar's epoch on, and then `fromUtcTime` recovers the instant |
| CivilTime.FromUtcTimeFitsInt | src/base/TimeZone.cc:487-493 | nor does an int overflow in `fromUtcTime`, for a valid date and time at such an instant |
| CivilTime.CivilRoundTrip | src/base/TimeZone.cc:487-493 | for valid dates and times at such instants: exactly those not before the epoch survive the trip through seconds |
| CivilTime.FromUtcTimeBegins | src/base/TimeZone.cc:487-493 | midnight on 1 January 1970 is second 0 |
| CivilTime.FromUtcTimeCounts | src/base/TimeZone.cc:487-493 | from the calendar's epoch on, the next second on a clock with minutes, hours and calendar days is the next number |
| CivilTime.BreakTimeTicks | src/base/TimeZone.cc:285-304 | a second later `BreakTime` shows the next time on that clock |
| TimeZones.UpperBound | src/base/TimeZone.cc:330-332 | the search stays in range and never returns the first position when the first key is at or before the value: the asserts behind both searches hold |
| TimeZones.BinarySearchIsScan | src/base/TimeZone.cc:330-331 | on sorted keys the halving search finds what a scan from the end finds |
| TimeZones.FindByUtc | src/base/TimeZone.cc:308-346 | the index it returns is that of a local time type |
| TimeZones.FindByUtcIsScan | src/base/TimeZone.cc:308-346 | with sorted transitions it picks the type of the last transition at or before the instant, or the first type |
| TimeZones.FindByLocal | src/base/TimeZone.cc:348-420 | the index it returns is that of a local time type |
| TimeZones.FindByLocalCases | src/base/TimeZone.cc:348-420 | which offset the lookup settles on for skipped, repeated and unique local times, the first and last transition not examined for repeats |
| TimeZones.SpacedInOrder | src/base/TimeZone.cc:353-361 | when transitions are further apart than the two adjacent jumps together, the local times they skip or repeat come in order and apart |
| TimeZones.ResolveShowsLocal | src/base/TimeZone.cc:469-480 | a local time that is not skipped resolves, for either reading, to an instant that shows it |
| TimeZones.ResolveMovesGap | src/base/TimeZone.cc:382-394 | a skipped local time moves forward by the gap read before the transition, back by the gap read after it, and forward either way at the first transition |
| TimeZones.ResolveRecoversInstant | src/base/TimeZone.cc:396-419 | from an instant to local time and back: one reading recovers it exactly outside the two unseparated windows, both exactly when the local time is also not shown twice, and the reading before is never later than the reading after |
| TimeZones.UtcRoundTrip | src/base/TimeZone.cc:450-480 | the same for `fromLocalTime` of `toLocalTime`, for every instant whose local time falls on days -536902956 to 536838867, where nothing overflows; the local date and time is valid exactly from the calendar's epoch on |
| TimeZones.LocalRoundTrip | src/base/TimeZone.cc:450-480 | for a valid date and time on those days, and when it is skipped one that is moved to those days: `toLocalTime` of `fromLocalTime` gives it back exactly when it is neither skipped nor before the epoch, for either reading |
| TimeZones.LocalGapMoves | src/base/TimeZone.cc:450-480 | a skipped date and time on those days, moved within them, comes back as a valid one whose seconds are its own moved by exactly the gap, unless that is before the epoch |
| TzFile.File.ReadBytes | src/base/TimeZone.cc:103-110 | reads exactly the bytes at the cursor, or throws when there are too few |
| TzFile.File.ReadInt | src/base/TimeZone.cc:124-140 | reads a signed integer, most significant byte first by `NetworkOrder.DecodePlaces`, at the cursor, or throws |
| TzFile.File.ReadUInt8 | src/base/TimeZone.cc:142-149 | reads the byte at the cursor, or throws |
| TzFile.File.Skip | src/base/TimeZone.cc:151-154 | moves the cursor, past the end if asked to, not before the beginning |
| TzFile.File.ReadToEnd | src/base/TimeZone.cc:112-122 | returns what is left |
| TzFile.Data.AddTransition | src/base/TimeZone.cc:48-52 | appends the transition with its shifted time, or throws and changes nothing when the type does not exist |
| TzFile.ReadDataBlock | src/base/TimeZone.cc:161-228 | returns true exactly for the blocks it accepts, told by `BlockIsReadable`, and then holds what the bytes say, told by the decoding theorems |
| TzFile.ReadTimeZoneFile | src/base/TimeZone.cc:230-275 | accepts exactly the files that `Version1Accepts`, `Version2Accepts` and `ShortFilesAreRefused` tell, and then holds what the file says |
| TzFile.BlockIsReadable | src/base/TimeZone.cc:161-219 | the reader accepts a block exactly when it has no leap seconds, indicators for all types or none, no negative count, all its bytes, and no transition of a missing type |
| TzFile.Version1Accepts | src/base/TimeZone.cc:235-268 | every file of any version but 2: accepted exactly when it begins with TZif and its first block can be so read |
| TzFile.Version2Accepts | src/base/TimeZone.cc:235-261 | every version 2 file with room for the second header: accepted exactly when both headers begin with TZif and the second block can be so read |
| TzFile.ShortFilesAreRefused | src/base/TimeZone.cc:235-261 | a file without room for its headers is refused |
| TzFile.Version1RefusesLeapSeconds | src/base/TimeZone.cc:171-172 | of the well-formed files that are not version 2 exactly those without leap seconds are accepted |
| TzFile.Version2RefusesLeapSeconds | src/base/TimeZone.cc:171-172 | of the well-formed version 2 files exactly those without leap seconds in the second block |
| TzFile.LoadedIsWellFormed | src/base/TimeZone.cc:210-214 | after a successful load with a local time type every index is in range, offsets are 32-bit and shifted times are right, so both lookups are defined |
| TzFile.Version1Decodes | src/base/TimeZone.cc:161-228 | every well-formed version 1 file without leap seconds decodes to the types and designations it encodes, and to its transitions, each with its time, its type and the local time it starts at |
| TzFile.Version2Decodes | src/base/TimeZone.cc:230-261 | every well-formed version 2 file without leap seconds in its second block decodes to what that block encodes, in the same terms, footer included; the skip lands on the second header |
| TzFile.SkipIsBodyLength | src/base/TimeZone.cc:252-254 | the distance computed from the first header is the length of the first body, leap seconds and indicators included |
| NetworkOrder.DecodeEncode | src/net/Endian.h:13-41 | every signed value reads back from its network-order bytes |
| NetworkOrder.EncodeDecode | src/net/Endian.h:13-41 | every byte string is the encoding of the value read from it |
| NetworkOrder.EncodePlaces | src/net/Endian.h:13-41 | each byte is the digit of its place in base 256, most significant first, of the two's complement for negative values |
| NetworkOrder.DecodePlaces | src/net/Endian.h:13-41 | so are the bytes of the value that is read from them |
| NetworkOrder.MixedRoundTrip | src/net/Buffer.h:197-296 | integers appended in any mix of widths read back in order, and the bytes behind them stay |
| MixedIntegers.AppendAndRead | src/net/Buffer.h:197-257 | the same on a `Buffer`: what was appended comes out as it went in, and what was appended behind it stays |
| MixedIntegers.PrependAndRead | src/net/Buffer.h:227-325 | an integer put in front and read again is itself, and the buffer holds what it held |
| ByteBuffer.Buffer.Swap | src/net/Buffer.h:34-39 | exchanges vectors and indices |
| ByteBuffer.Buffer.RetrieveAll | src/net/Buffer.h:126-130 | empties the queue and starts over behind the prepend area |
| ByteBuffer.Buffer.Retrieve | src/net/Buffer.h:86-97 | takes the bytes off the front; an emptied buffer starts over behind the prepend area |
| ByteBuffer.Buffer.RetrieveAsString | src/net/Buffer.h:137-143 | returns the bytes it takes off |
| ByteBuffer.Buffer.Append | src/net/Buffer.h:155-160 | the queue gets the bytes at its end, whether in place, after compaction or after growth |
| ByteBuffer.Buffer.EnsureWritableBytes | src/net/Buffer.h:167-174 | the queue is unchanged and has room; the assert on line 173 holds |
| ByteBuffer.Buffer.MakeSpace | src/net/Buffer.h:363-382 | grows, or moves the readable bytes down over themselves to behind the 8 bytes of the prepend area, without changing the queue; the assert on line 373 holds |
| ByteBuffer.CopyWithin | src/net/Buffer.h:375-377 | the forward copy within the vector moves the bytes right although source and target overlap |
| ByteBuffer.Buffer.Unwrite | src/net/Buffer.h:188-192 | takes bytes off the end |
| ByteBuffer.Buffer.Prepend | src/net/Buffer.h:327-333 | puts bytes in front, in the prepend area |
| ByteBuffer.Buffer.Shrink | src/net/Buffer.h:335-342 | the queue is unchanged in a vector just large enough for it and the reserve, but not below the initial size |
| ByteBuffer.Buffer.ReadFd | src/net/Buffer.cc:13-40 | the queue gets all bytes delivered, also those that overflowed into the extra buffer; a failed read changes nothing and reports the error |
| ByteBuffer.Buffer.AppendInt | src/net/Buffer.h:197-221 | the queue gets at its end the bytes that `NetworkOrder.EncodePlaces` tells |
| ByteBuffer.Buffer.PeekInt | src/net/Buffer.h:263-296 | the one signed value whose network-order bytes are in front |
| ByteBuffer.Buffer.ReadInt | src/net/Buffer.h:227-257 | the same value, and its bytes are gone |
| ByteBuffer.Buffer.PrependInt | src/net/Buffer.h:301-325 | the queue gets the network-order bytes in front |
| ByteBuffer.GrowthBound | src/net/Buffer.h:363-369 | growing for `len` bytes ends below readable + 2 * len + 8 |
| ByteBuffer.RunSpaceBound | src/net/Buffer.h:155-192 | over any run the vector stays within its initial size or the peak of readable bytes plus the largest addition plus 7 |
| ByteBuffer.RunKeepsPrependable | src/net/Buffer.h:327-382 | over any run, the 8 bytes less those prepended since the queue was last emptied or moved down can still be prepended |
| ConnectionSteps.SendKeepsOrder | src/net/TcpConnection.cc:188-226 | a message is accepted exactly when the connection is not closed, and bytes on the wire followed by buffered bytes are those accepted |
| ConnectionSteps.HandleWriteKeepsOrder | src/net/TcpConnection.cc:143-165 | writing buffered bytes keeps that, and write interest stays on exactly while bytes are buffered |
| ConnectionSteps.SendTakes | src/net/TcpConnection.cc:193-225 | what the socket takes of a directly written message goes onto the wire, the rest behind what is buffered |
| ConnectionSteps.HandleWriteTakes | src/net/TcpConnection.cc:145-148 | what the socket takes in a write event leaves the front of the buffer for the wire |
| ConnectionSteps.SendCompletesAccurately | src/net/TcpConnection.cc:197-203 | a send queues write-complete exactly when all accepted bytes were and are on the wire |
| ConnectionSteps.HandleWriteCompletesAccurately | src/net/TcpConnection.cc:147-153 | a write event queues write-complete exactly when it puts the last accepted bytes on the wire |
| ConnectionSteps.HighWaterIsAccurate | src/net/TcpConnection.cc:214-220 | high water is queued exactly on an upward crossing of the mark, with the pending bytes after it |
| ConnectionSteps.ShutdownOnlyCutsPending | src/net/TcpConnection.cc:228-233 | shutting down shuts the write side exactly while output is pending; draining never does |
| ConnectionSteps.SendKeepsPolling | src/net/Channel.h:55-59 | sending keeps an established channel out of the poller exactly while it asks for nothing, enabling included |
| ConnectionSteps.HandleWriteKeepsPolling | src/net/Channel.h:69-72 | so does a write event, disabling included |
| ConnectionSteps.ReadingKeepsPolling | src/net/Channel.h:51-64 | so do establishing, and starting and stopping to read; the reading flag is never on without the interest |
| ConnectionSteps.DestructionCompletes | src/net/TcpConnection.cc:118-126 | for a connection once established, which asserts behind its destruction hold: Channel.cc:42 exactly when it is connected or idle (reading stopped, nothing buffered), EpollPoller.cc:67 exactly when it is both or neither, all of them exactly when it is both |
| ConnectionSteps.SendAssertMeansSuccess | src/net/TcpConnection.cc:198-213 | the error branch is unreachable and the assert on line 213 holds exactly when the write did not fail |
| ConnectionSteps.RetrieveAssertMeansSuccess | src/net/TcpConnection.cc:146-148 | a failed write passes as positive and fails the assert of `retrieve` |
| ConnectionSteps.FailedReadIsMessage | src/net/TcpConnection.cc:131-140 | a failed read takes the branch of a message, only 0 that of a close |
| Connection.TcpConnection.SendInLoop | src/net/TcpConnection.cc:188-226 | fields, `Buffer`, channel and loop queue end up as the send step says, of which order, completion and crossing are proved |
| Connection.TcpConnection.HandleRead | src/net/TcpConnection.cc:128-141 | what was read goes to the end of the input buffer; only an end of file closes, and a failed read passes as a message |
| Connection.TcpConnection.HandleWrite | src/net/TcpConnection.cc:143-165 | the same for the write step |
| Connection.TcpConnection.Send | src/net/TcpConnection.cc:47-58 | sends at once in the loop, queues the message elsewhere, drops it when not connected |
| Connection.TcpConnection.ConnectionDestory | src/net/TcpConnection.cc:118-126 | under the asserts of `m_channel->remove()` a connection still connected is disconnected with no interest left, and the channel is gone from the poller |
| ConnectionNames.NamesDiffer | src/net/TcpServer.cc:46-49 | names that are not cut are equal exactly for equal numbers |
| ConnectionNames.PrintedForms | src/net/SocketOps.cc:183-203 | an address and port are printed with a colon, an IPv6 address in brackets; a name is a dash, that text, a hash and the number |
| ConnectionNames.NameRepeatsExactlyWhenCut | src/net/TcpServer.cc:46-49 | for any address text, a connection gets the name of an earlier one exactly when its name is cut, be it before or inside the number |
| ConnectionNames.ServerNamesAreUncut | src/net/SocketOps.cc:183-203 | with an address that a socket can have and a number that an int can hold no name is cut |
| ConnectionNames.ServerNamesDiffer | src/net/TcpServer.cc:46-49 | so no two connections of a server share a name |
| TcpServers.TcpServer.NewConnection | src/net/TcpServer.cc:43-67 | while the int counter can count on: registers a new connection under its name and number, established at once in the base loop and queued to be elsewhere |
| TcpServers.TcpServer.RemoveConnectionInLoop | src/net/TcpServer.cc:69-79 | erases the name and queues one destruction on the connection's loop |
| TcpServers.TcpServer.RemoveConnection | src/net/TcpServer.cc:81-83 | does that at once in the base loop, and queues it there otherwise |
| Server.StepKeepsInv | src/net/TcpServer.cc:43-83 | every action of every loop, channel and caller keeps the books of every connection balanced |
| Server.RunKeepsInv | src/net/TcpServer.cc:43-83 | so does every run, in every interleaving |
| Server.BytesInOrder | src/net/TcpConnection.cc:143-226 | after every run, bytes on the wire followed by buffered bytes are the messages handed over while not closed, in order; write interest is on exactly while bytes are buffered |
| Server.WireIsWhatWasTaken | src/net/TcpConnection.cc:143-226 | after every run the messages handed over are on the wire just as far as the write calls of the run took them, and buffered from there on |
| Server.SendsRunInOrder | src/net/TcpConnection.cc:47-58 | over every run, the messages sent to a connection from other threads are those whose queued send has run followed by those that wait, in the order of sending |
| Server.ClosingTakesOnlyQueued | src/net/TcpConnection.cc:47-95 | once a shutdown or a close has been asked for, over every run from there the bytes a connection still takes are a prefix of those of the sends already queued from other threads; nothing sent later is taken |
| Server.HighWaterAlternates | src/net/TcpConnection.cc:214-220 | over every run, high-water notifications and falls below the mark alternate |
| Server.NotificationsAreAccurate | src/net/TcpConnection.cc:147-220 | over every run an action queues high water exactly when the pending output crosses the mark upward, with its size; it queues write-complete only with all accepted bytes on the wire, and whenever the last of them has just gone there |
| Server.RemovedExactlyOnce | src/net/TcpServer.cc:69-83 | over every run a connection is closed at most once, and every close has one removal, done or waiting: one erasure, and with it one destruction queued, which waits for good; with no removal waiting the table holds exactly the connections never closed |
| Server.TaskAssertsHold | src/net/TcpServer.cc:69-75 | in every reachable state a queued task runs in its own loop, establishes only from the connecting state, and removes a name that is in the table for that very connection |
| Server.DestructionNeverCompletes | src/net/TcpConnection.cc:118-126 | in every reachable state a destruction whose turn has come is of a closed connection; Channel.cc:42 holds exactly when it is idle, EpollPoller.cc:67 exactly when not, so one of the two stops the program |
| Server.RemoveAssertFails | src/net/TcpConnection.cc:118-126 | two actions that lead to the first of the two |
| Server.PollerAssertFails | src/net/TcpConnection.cc:118-126 | four actions that lead to the second |
| Server.StatusOnlyAdvances | src/net/TcpConnection.cc:109-126 | over every run a connection's state only goes forward |
| Server.StatusFollowsEvents | src/net/TcpConnection.cc:74-141 | in every reachable state an action makes a connection connected by establishing it, disconnecting by asking a connected one to close in any of the three ways, disconnected by an end of file or a forced close whose turn has come, and leaves it as it is otherwise |
| Server.OpenUntilClosed | src/net/TcpConnection.cc:109-116 | after every run without a shutdown, a forced close or an end of file of a connection it is connecting while its establishing waits and connected otherwise |
| Server.AcceptRegisters | src/net/TcpServer.cc:43-67 | in every reachable state a new connection is in the table under its own number, connected at once in the base loop, and elsewhere connecting with its establishing at the end of its loop's queue |
| Server.ReadingFollowsCalls | src/net/TcpConnection.cc:101-107 | in every reachable state read interest comes on with establishing and with a start that has got to the loop, goes off with a stop that has, and stays as it is otherwise |
| Server.ShutdownsCutPending | src/net/TcpConnection.cc:228-233 | in every reachable state an action shuts the write side exactly when it lets a shutdown get to the loop while output is pending |
| Server.CallsWait | src/net/TcpConnection.cc:47-107 | a call from outside the loop leaves exactly its task at the end of the connection's own queue, and every other queue as it is |
| Server.NothingElseStops | src/net/TcpConnection.cc:109-175 | in every reachable state every action is possible but those at the three places where a run stops: a used-up counter, an end of file at a connection that is not alive, a destruction |
| Server.ForceCloseQueues | src/net/TcpConnection.cc:74-79 | forcing a live connection to close leaves that waiting on its loop |
| Server.ForceCloseCloses | src/net/TcpConnection.cc:235-240 | whenever it runs, the connection is closed after it with its one removal done or waiting |
| Server.CloseAssertHoldsUntilRemoval | src/net/TcpConnection.cc:167-175 | in every reachable state an end of file meets the assert on line 170 exactly when neither an establishing nor a removal nor a destruction of the connection is queued; a connection is closed exactly when one removal or destruction is |
| Server.CloseAssertCanFail | src/net/TcpConnection.cc:167-175 | three actions that lead to a closed connection with read interest on and its removal waiting, where the next end of file fails that assert |
| BoundedQueue.BoundedBlockQueue.IsFullNoLock | src/base/BoundedBlockQueue.h:52-54 | full means one element less than slots |
| BoundedQueue.BoundedBlockQueue.IsEmptyNoLock | src/base/BoundedBlockQueue.h:48-50 | empty means no element |
| BoundedQueue.BoundedBlockQueue.TryPush | src/base/BoundedBlockQueue.h:15-24 | one pass of the wait loop: goes in at the end exactly when not full |
| BoundedQueue.BoundedBlockQueue.TryPop | src/base/BoundedBlockQueue.h:26-36 | one pass of the wait loop: comes off the front exactly when not empty |
| BoundedQueue.PushStep | src/base/BoundedBlockQueue.h:15-24 | a pass of `push` does to the ring what the monitor's step does to its elements, for a new call and for a woken thread |
| BoundedQueue.PopStep | src/base/BoundedBlockQueue.h:26-36 | so does a pass of `pop`, and it returns the element that the step takes |
| BoundedQueue.StepKeepsInv | src/base/BoundedBlockQueue.h:15-36 | every push, pop, resumption and spurious wakeup keeps enough woken threads for the elements and free slots that others sleep through |
| BoundedQueue.RunKeepsInv | src/base/BoundedBlockQueue.h:15-36 | so does every run |
| BoundedQueue.FirstInFirstOut | src/base/BoundedBlockQueue.h:15-36 | over every run what came out is what went in, in order, and at most N - 1 elements wait |
| BoundedQueue.EveryPushCounts | src/base/BoundedBlockQueue.h:15-24 | over every run the elements of all pushes that began are, as a multiset, those that went in and those whose producers still sleep or have been woken |
| BoundedQueue.EveryPopCounts | src/base/BoundedBlockQueue.h:26-36 | over every run each pop that began has one element that came out, or its consumer still sleeps or has been woken |
| BoundedQueue.NeverStalls | src/base/BoundedBlockQueue.h:15-36 | over every run no wakeup is lost: with nobody woken, consumers sleep only on an empty queue and producers only on a full one, never both for N >= 2 |
| BoundedQueue.ThreadsCanMove | src/base/BoundedBlockQueue.h:15-36 | over every run any thread outside may begin either call and any woken thread may go on, whatever the state of the queue |
| BoundedQueue.OneSlotHoldsNothing | src/base/BoundedBlockQueue.h:48-54 | with N == 1 nothing ever goes in |
| BoundedQueue.StallsOnlyWithOneSlot | src/base/BoundedBlockQueue.h:15-36 | some run leaves a producer and a consumer asleep with nobody woken exactly when N == 1 |
| IntegerText.NumeralHasValue | src/base/LogStream.cc:50-66 | a numeral is canonical and reads back as its value, in base 10 and in base 16 |
| IntegerText.ValueHasNumeral | src/base/LogStream.cc:50-66 | and it is the only canonical numeral of its value |
| IntegerText.DecimalRoundTrip | src/base/LogStream.cc:27-48 | the decimal text of every integer is canonical and reads back as the integer |
| IntegerText.DecimalIsUnique | src/base/LogStream.cc:27-48 | and it is the only canonical text that does |
| IntegerText.LongestText | src/base/LogStream.cc:27-66 | no 64-bit value takes more than 20 decimal or 16 hexadecimal digits |
| IntegerText.DigitsInOrder | src/base/LogStream.cc:19-24 | digits are 0 to 9 and A to F in that order, and a negative number is a dash and its opposite |
| IntegerText.PutDigits | src/base/LogStream.cc:30-38 | the digit loop writes the numeral of the magnitude backward, negative remainders included |
| IntegerText.Reverse | src/base/LogStream.cc:45 | reverses that part of the array and nothing else |
| IntegerText.Convert | src/base/LogStream.cc:27-48 | writes the decimal text and a NUL, and nothing else |
| IntegerText.ConvertHex | src/base/LogStream.cc:50-66 | writes the hexadecimal text and a NUL, and nothing else |
| LogBuffer.FixedBuffer.Append | src/base/LogStream.h:25-33 | text goes in whole exactly when it leaves a character free |
| LogBuffer.FixedBuffer.Add | src/base/LogStream.h:42 | takes in what was written directly at the cursor, up to the end of the buffer |
| LogBuffer.FixedBuffer.DebugString | src/base/LogStream.cc:184-189 | with a character free, as the insertions leave it, the terminating NUL has room and changes no text |
| LogBuffer.LogStream.InsertInteger | src/base/LogStream.cc:201-209 | inserts the decimal text exactly when 48 characters are free |
| LogBuffer.LogStream.InsertPointer | src/base/LogStream.cc:259-271 | inserts 0x and the hexadecimal address exactly when 48 characters are free |
| LogBuffer.LogStream.InsertText | src/base/LogStream.h:120-130 | inserts the text, or nothing |
| LogBuffer.LogStream.InsertBool | src/base/LogStream.h:68-72 | inserts 1 or 0, or nothing |
| LogBuffer.LogStream.InsertChar | src/base/LogStream.h:93-97 | inserts the character, or nothing |
| LogBuffer.RunHoldsAdmitted | src/base/LogStream.h:62-136 | over any run of insertions the buffer holds the admitted pieces whole and in order, with a character to spare |
| LogBuffer.ShortRunIsComplete | src/base/LogStream.h:62-136 | a run whose text leaves 48 characters free loses nothing |

## Left out

- Server.RunKeepsInv: ends before connection number INT_MAX, where incrementing the int counter would overflow.
- TimeZones.LocalRoundTrip: like the other round trips of `TimeZones`, takes it that transitions are further apart than the two adjacent jumps together (`Spaced`); tables with denser transitions are not described.
- Failed system calls in the run-level results on connections: a failed `write` stops the program at an assert, as the members named above prove, so the state machine takes writes that return 0 or more.
- The write side once it has been shut: that `write` fails afterwards is not modelled.
- Racing accesses to a connection's status from several threads, the lifetime of a `StringPiece` bound to a queued send, and the server's destructor, which destroys
  connections that are still in the table.
- Timers: `forceCloseWithDelay` sets the status; the later `forceClose` is an ordinary call at any time.
- The user callbacks, which are steps of their own where they call back; and the input buffers in the state machine of the whole server, which nothing there depends on.
- Wait loops as such: a Dafny method cannot block, so `push` and `pop` are one pass of their loop each, and the monitor's runs put the passes together.
- 64-bit overflow of transition times with their offset, and of `6 * typecnt` and `8 * leapcnt` in a malformed version 2 header.
- Memory that runs out for counts of billions, a negative designation count (a negative array length in the code, a failed read here), and files that change while they are read.
- `loadZoneFile`, `UTC` and the fixed-offset constructor, which only wrap a table; `toIsoString`, `weekDay`.
- `findCRLF`, `findEOL`, `retrieveUntil` and `internalCapacity` of the buffer.
- `formatSI`, `formatIEC`, `Fmt` and the insertion of floating-point numbers; the text `(null)` for a null C string.
- The poller's map from descriptors to channels, taken to hold every channel with an index, and reuse of descriptors; the loop's phases of polling, events and tasks: an event may come at any time here, also for an interest that is off, so that every order of the code is among the runs.
- What a release build would do after an assert that fails.
- `BlockQueue`, `ThreadPool`, the loop pool, sockets, and the asynchronous log.
