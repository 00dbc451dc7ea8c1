# Protocol and driver state machines of the MT8173 hardware layer

A Dafny model of the code in this repository that keeps state across calls, with proofs of what that state means to
its users. `dafny verify dfyconfig.toml` checks everything.

| module | models |
|---|---|
| `CcbRing` | one direction of a CCB buffer: pages shared by the application processor and the modem, four indices (ccci/ccci_lib.c) |
| `CcbPages` | where its pages and their payloads lie in memory |
| `CcbFifo` | the same ring against a FIFO stated on histories, over whole runs of calls |
| `CcbInterleaving` | the same ring when the parties interleave between the loads and stores of one call |
| `CcbLayout` | the memory layout that init, check and register walk separately |
| `ParseInfo` | the `[name]:value` scanner |
| `EventReader` | the double-length circular event reader (sensor/InputEventReader.cpp) |
| `Magnetic`, `Acceleration` | the frame assemblers on top of it, `Timestamps` their integer conversions |
| `MagneticFrames` | what each of the two sensors of `Magnetic` makes of the stream, frame by frame |
| `PollEvents` | the merge loop over the drivers (sensor/nusensors.cpp) |
| `BatchFlush`, `Hwmsen` | flush accounting and timestamp backfill |
| `MsgRing` | the NFC message rings with their condition variable (nfc/mtk_nfc_sys.c) |
| `Lights` | LED arbitration between battery and notification (liblights/lights.c) |

Each module has a value-level specification of the calls, theorems about it over every run, and a class whose methods
update the source's fields in place and are proved to do what the specification says. Inputs from outside (what
`read()`, `poll()` and the clocks deliver, what the modem writes, results of ioctls) are parameters. The modem's side
of a CCB ring is not in this repository; it is taken to be the mirror of the code for the other direction.

## Where the code does less than its callers may expect

- write_done and a modem that reads in between (`CcbInterleaving`): `write_index` is incremented and then wrapped. A
  consumer standing at index 0 that loads the value in between takes the ring for full and receives a page of an
  earlier lap (`PhantomPage`). A read_get goes right exactly when its load is not that one (`LendIsRightIffCoherent`), and
  with such loads excluded, as when both stores are one, every interleaving is a FIFO.
- read_get twice without read_done (`TwoLentPagesWedge`, `WedgedIff`, `WedgeReachableIff`): nothing can be given back
  any more until the reader registers again.
- Registering the writer again publishes unfinished pages (`AttachWriterSafeIffNothingPending`).
- write_done with an address that was never handed out ends its search at the last page, and completes it exactly
  when it is being written (`ForeignAddressAcceptedIff`, `ForeignAddressCompletesAPage`).
- write_done accepts lengths up to the page size, although a payload fits in its page only without the page header
  (`AcceptedPayloadFitsIff`, `FullPageCoversNextHeader`).
- The length check of init_user leaves out headers and guard words, adds up the buffers of all users, and wraps
  (`LengthCheckEnoughIff`, `LengthCheckGap`, `LengthCheckTooWeak`, `LengthCheckWraps`).
- parse_info does not test its buffers (`LookupStaysInsideIff`).
- A frame of the acceleration sensor that lacks a code can be emitted with the value of an earlier frame
  (`FrameStandsAloneIff`, `HalfFrameRepeatsSample`).
- A negative count clears the pending flag of the flush counters too early (`ReadKeepsHonestIff`).
- With the battery lit, new blink delays do not reach a LED that is blinking already (`BatteryDelaysFreshIff`).
- When poll() fails after events were stored, pollEvents returns the error and not their number
  (`CountIsReturnedIff`, `EventsAreHiddenIff`, `FailureHidesEvent`, `CallersAreToldIff`).
- A send whose signal fails returns an error although its message is queued, and leaves a blocked consumer blocked
  (`RingIsQueue`, `FailedSignalIsMissed`).
- The negative result of a driver is subtracted from the count of events and moves the output back
  (`BooksAreRightIff`, `FailedDriverMovesBack`).
- The comment at nfc/inc/mtk_nfc_sys.h:291 calls end_buffer one past the end; the code makes it the last slot
  (nfc/mtk_nfc_sys.c:579), and the model follows the code.
- The comment at liblights/lights.c:371 wants unchanged trackball modes not to be set again; g_trackball is never
  assigned, so the code sets them on every call, and the model follows the code.

## Model

| member | source | states |
|---|---|---|
| `CcbRing.Channel.WriteAlloc` | ccci/ccci_lib.c:650-689 | the header in memory becomes the ring after TakePage, the address is that of the page handed out, and nothing changes while the modem is not ready |
| `CcbRing.Channel.FindPage` | ccci/ccci_lib.c:715-724 | the linear search stops at the page that owns the address, and at the last page when none does |
| `CcbRing.Channel.PublishFinished` | ccci/ccci_lib.c:732-746 | the advance loop leaves the write index where Publish does |
| `CcbRing.Channel.WriteDone` | ccci/ccci_lib.c:691-754 | completes exactly the located page and publishes as FinishPage does; every refusal leaves the header as it was |
| `CcbRing.Channel.ReadGet` | ccci/ccci_lib.c:793-825 | the header becomes the ring after LendPage, with address and length of the page or the right error code |
| `CcbRing.Channel.ReadDone` | ccci/ccci_lib.c:827-849 | the header becomes the ring after ReturnPage, 0 or -EFAULT |
| `CcbRing.PollScan` | ccci/ccci_lib.c:773-790 | a bit is set exactly for a requested buffer with pages available, and another scan is needed exactly when there is none |
| `CcbPages.AddressesApart` | ccci/ccci_lib.c:639-644 | payload addresses of different pages are at least a page apart |
| `CcbPages.PagesInsideDataArea` | ccci/ccci_lib.c:582 | with the page count of register every page ends inside the data area |
| `CcbPages.LocatedIsUnique` | ccci/ccci_lib.c:716-729 | no address is located at two pages, so a completion hits one page |
| `CcbRing.ForeignAddressAcceptedIff` | ccci/ccci_lib.c:716-729 | an address that is no page's is accepted exactly when the last page is being written |
| `CcbRing.ForeignAddressCompletesAPage` | ccci/ccci_lib.c:716-746 | a ring in which it sends the consumer a page that its owner has not completed |
| `CcbPages.PayloadStaysInPageIff` | ccci/ccci_lib.c:709-712 | an accepted payload ends inside its page exactly when its length plus the page header is at most the page size; otherwise it reaches the next header |
| `CcbRing.AcceptedPayloadFitsIff` | ccci/ccci_lib.c:709-731 | in any ring, each length up to the page size is accepted for a page being written, and the last eight of them leave the page |
| `CcbRing.FullPageCoversNextHeader` | ccci/ccci_lib.c:709-746 | a run in which a payload as long as its page is received and covers the header of the next page |
| `CcbFifo.IndexGap` | ccci/ccci_lib.c:733-746 | two counts less than a lap apart have indices exactly that far apart around the ring, through every wrap |
| `CcbFifo.SpaceIsFree` | ccci/ccci_lib.c:668-675 | the three-branch space computation is the number of pages not out, wherever the indices stand |
| `CcbFifo.NextPageIsFree` | ccci/ccci_lib.c:676-682 | the page about to be handed out is none that the consumer has not given back, and none still being written |
| `CcbFifo.TakeStep` | ccci/ccci_lib.c:650-689 | after any history, write_alloc hands out an unused page unless n-1 are out, and keeps the ring a picture of the history |
| `CcbFifo.CompleteIsOneUpdate` | ccci/ccci_lib.c:725-731 | completing a page finishes one entry of the history and no other |
| `CcbFifo.PublishIsMaximal` | ccci/ccci_lib.c:732-746 | the advance loop ends with write at the first page still being written, or at allocate |
| `CcbFifo.FinishStep` | ccci/ccci_lib.c:691-746 | write_done is accepted exactly for a page being written, in any order, and leaves the published prefix maximal |
| `CcbFifo.LendStep` | ccci/ccci_lib.c:793-825 | read_get gives the oldest published page not yet received with its completed length, and -EAGAIN exactly when there is none |
| `CcbFifo.GiveBackStep` | ccci/ccci_lib.c:827-849 | read_done succeeds exactly when one page is lent |
| `CcbFifo.AvailableIsExact` | ccci/ccci_lib.c:756-762 | read_available is the number of published pages not received, and it is nonzero exactly when read_get would give one |
| `CcbFifo.RunsAreLegal` | ccci/ccci_lib.c:650-849 | from any ring that pictures its history, every reply in every run is one the FIFO allows |
| `CcbFifo.RingIsFifo` | ccci/ccci_lib.c:650-849 | from a fresh ring, in every interleaving of calls, the pages received are the first ones allocated, in order, once each, with their lengths; at most n-1 are out; free, read, write and allocate stay in cyclic order at the distances of the counts |
| `CcbFifo.NothingStaysUnpublished` | ccci/ccci_lib.c:730-746 | once no page is being written, write has reached allocate |
| `CcbFifo.SecondFinishRefused` | ccci/ccci_lib.c:725-729 | completing a page twice is refused the second time and changes nothing |
| `CcbFifo.OnePageRingAcceptsReadDone` | ccci/ccci_lib.c:838-848 | with one page read_done is accepted although nothing was lent, which is why two pages are the least |
| `CcbFifo.TwoLentPagesWedge` | ccci/ccci_lib.c:816-848 | with two pages lent, in every continuation without a registration free never moves, read_done is refused, and the producer gets only the room that was left |
| `CcbFifo.WedgedIff` | ccci/ccci_lib.c:816-848 | some continuation without a registration lets read_done succeed exactly when at most one page is lent |
| `CcbFifo.WedgeReachableIff` | ccci/ccci_lib.c:650-849 | from a fresh ring two pages can come to be lent exactly when it has three pages or more |
| `CcbFifo.AttachEndsTheWedge` | ccci/ccci_lib.c:555 | registering the reader again leaves nothing lent, keeps what was received and allocated, and lets the next page be given back |
| `CcbFifo.AttachWriterSafeIffNothingPending` | ccci/ccci_lib.c:573 | after registering the writer again the ring is a picture of some history exactly when no page was being written, and then nothing has changed |
| `CcbFifo.AttachWriterExposesPendingPage` | ccci/ccci_lib.c:573 | a concrete ring in which it makes read_get fail with -EFAULT instead of -EAGAIN |
| `CcbInterleaving.IndexOrder` | ccci/ccci_lib.c:669-675 | the order of the two indices tells how many pages are out |
| `CcbInterleaving.SpaceDecision` | ccci/ccci_lib.c:669-682 | with free_index loaded three times while the consumer moves, a page is handed out only if one is free at the last load, and refused only if n-1 are out then |
| `CcbInterleaving.StatusStep` | ccci/ccci_lib.c:730-731 | the status store before the length store is harmless because the page is not published yet |
| `CcbInterleaving.LoopDecision` | ccci/ccci_lib.c:734-742 | each test of the advance loop publishes a finished page only, and stops only at the longest finished prefix |
| `CcbInterleaving.PublishedPageIsStored` | ccci/ccci_lib.c:806-814 | the page a consumer is about to copy is completely written although the producer has stores in flight |
| `CcbInterleaving.FreeHelpsProducer` | ccci/ccci_lib.c:838-847 | a page given back between two loads of free_index cannot make the producer's knowledge wrong |
| `CcbInterleaving.ProducerKeeps` | ccci/ccci_lib.c:668-746 | every load and store of the producer keeps the invariant of the interleaved system |
| `CcbInterleaving.ConsumerKeeps` | ccci/ccci_lib.c:805-847 | so does every load and store of the consumer |
| `CcbInterleaving.LoadIsRightIffCoherent` | ccci/ccci_lib.c:737-739 | what the consumer concludes from a loaded write_index is right exactly when it did not stand at 0 and see the unwrapped value |
| `CcbInterleaving.LendIsRightIffCoherent` | ccci/ccci_lib.c:805-818 | from any state of the interleaved system, a read_get that runs to its end meets no unwritten page and receives no more than was published exactly when its load is coherent |
| `CcbInterleaving.RunKeeps` | ccci/ccci_lib.c:650-849 | the invariant holds after every run of steps with such loads |
| `CcbInterleaving.InterleavingsAreFifo` | ccci/ccci_lib.c:650-849 | at the granularity of loads and stores: received pages are the first allocated, in order and once each, none unfinished; pages out are pairwise different; between write_done calls the published prefix is maximal |
| `CcbInterleaving.OnlyTheWrapIsIncoherent` | ccci/ccci_lib.c:737-739 | no other moment of the producer makes a load incoherent |
| `CcbInterleaving.OneStoreIsCoherent` | ccci/ccci_lib.c:737-739 | if increment and wrap are not separated by a read_get, every load of the run is coherent |
| `CcbInterleaving.PhantomPage` | ccci/ccci_lib.c:737-739 | a run in which one page is allocated and two are received, the second from an earlier lap |
| `CcbLayout.SlotsApart` | ccci/ccci_lib.c:352-384 | for any table, headers, page areas and guard words of different slots are disjoint and inside the walked range |
| `CcbLayout.LayoutIsTable` | ccci/ccci_lib.c:352-384 | the walk meets, from the fifth byte on, the downlink headers of the user's ports and then their uplink headers, each 28 bytes, its buffer and a guard word behind the one before |
| `CcbLayout.InitAllInitialises` | ccci/ccci_lib.c:352-384 | after the initialising walk every slot holds its sizes and guard, none overwritten by a later slot |
| `CcbLayout.InitHeader` | ccci/ccci_lib.c:360-367 | one step of the walk writes one slot and ends behind its guard word |
| `CcbLayout.InitUser` | ccci/ccci_lib.c:323-391 | afterwards the headers at those addresses hold page size and buffer size of downlink and uplink of each port, with the guard words behind the buffers, also behind the end of the mapping when the length check lets that pass; or it refuses and writes nothing |
| `CcbLayout.CheckUser` | ccci/ccci_lib.c:393-459 | accepts exactly when the state is OK and the headers at those addresses hold those fields of the table |
| `CcbLayout.AttachHeader` | ccci/ccci_lib.c:553-568 | one step of register does to memory what AttachSlot does, and keeps address, guard and page count of the header found there |
| `CcbLayout.RegisterOneMore` | ccci/ccci_lib.c:552-587 | attaching one slot leaves attached slots attached and the others untouched |
| `CcbLayout.Register` | ccci/ccci_lib.c:532-588 | visits the slots that the sizes in memory describe, which after init and check are those of the layout; keeps for each as many pages as fit before the guard word; sets free to read or write to allocate and the guard in each and keeps every other header field; fails with -EFAULT exactly when the modem's mark is missing somewhere |
| `CcbLayout.MatchingIsFilter` | ccci/ccci_lib.c:306-310 | the ports of a user are all those of the table with that user, in its order |
| `CcbLayout.GetConfig` | ccci/ccci_lib.c:301-321 | finds the buffer_id-th port of the user, or none when there are fewer |
| `CcbLayout.QueryConfig` | ccci/ccci_lib.c:473-486 | the other loop finds the same port |
| `CcbLayout.LengthCheckGap` | ccci/ccci_lib.c:338-350 | for any table, a mapping is accepted and too short exactly between the 32-bit sum of all buffers and the user's buffers with 64 more bytes for each of its ports |
| `CcbLayout.LengthCheckEnoughIff` | ccci/ccci_lib.c:338-350 | for which tables the check can be relied on, exactly |
| `CcbLayout.OneUserIsNotCovered` | ccci/ccci_lib.c:338-350 | a table of one user only is such a table exactly when it is empty |
| `CcbLayout.LengthCheckTooWeak` | ccci/ccci_lib.c:295-299 | with the compiled-in table a mapping 128 bytes too short is accepted |
| `CcbLayout.LengthCheckWraps` | ccci/ccci_lib.c:338-347 | a table whose sum wraps to zero, with which four bytes are accepted |
| `ParseInfo.ParseInfo` | ccci/ccci_lib.c:83-147 | the scanner over two fixed buffers returns the value of the first pair in the text with that name, or its first size-1 characters, or -1 when no pair has it, on every text that it scans without leaving the buffers |
| `ParseInfo.ParseInvertsPrint` | ccci/ccci_lib.c:92-145 | scanning any printed file, LF or CRLF and with text between the lines, gives back its pairs, and stays inside the buffers exactly when every name and value is under 32 characters |
| `ParseInfo.LookupInPrintedFile` | ccci/ccci_lib.c:134-146 | a name is found with the value of the first line that has it, and not found exactly when no line has it |
| `ParseInfo.LookupStaysInsideIff` | ccci/ccci_lib.c:87-145 | a lookup stays inside the buffers exactly when the names and values are that short up to the first line with the name |
| `ParseInfo.UnterminatedLineIsIgnored` | ccci/ccci_lib.c:123-146 | a last line without an end of line is never reported |
| `ParseInfo.BrokenLineIsGivenUp` | ccci/ccci_lib.c:107-127 | a line that ends inside its name, or has no colon behind it, is given up there and does not disturb what follows |
| `ParseInfo.PairsStandInText` | ccci/ccci_lib.c:92-145 | whatever the text, a reported pair stands in it between its delimiters |
| `EventReader.WriteAppends` | sensor/InputEventReader.cpp:79-88 | the spill stays inside the double buffer, neither it nor its copy overwrites an unread event, and the unread events grow by what was read, also with the head on the middle |
| `EventReader.RejectedWriteIsHarmless` | sensor/InputEventReader.cpp:73-77 | a read that is rejected as partial has not touched an unread event |
| `EventReader.ReaderIsFifo` | sensor/InputEventReader.cpp:69-108 | over any run, with rejected and failed reads in between, consumed events followed by unread ones are the delivered ones in order |
| `EventReader.CircularReader.Fill` | sensor/InputEventReader.cpp:69-92 | appends what read() delivered and nothing on an error, and does not read without free space |
| `EventReader.CircularReader.ReadEvent` | sensor/InputEventReader.cpp:94-99 | reports an event exactly when one is unread, and it is the oldest |
| `EventReader.CircularReader.Next` | sensor/InputEventReader.cpp:101-108 | drops the oldest unread event; without one it breaks the reader |
| `Timestamps.HalvesJoin` | sensor/Magnetic.cpp:472-481 | the two halves give the joined timestamp in either order and nothing of the old one survives |
| `Timestamps.JoinSplit` | sensor/Acceleration.cpp:382-390 | joining the halves of a timestamp gives it back |
| `Timestamps.ToInt8Is` | sensor/Acceleration.cpp:357-360 | the status kept is the signed byte congruent to the value, and the value itself when it fits |
| `Magnetic.ServeIsPrefix` | sensor/Magnetic.cpp:376-404 | a SYN cut off for lack of room has emitted the first part of what it owes, owes exactly the rest, and is kept only then |
| `Magnetic.DrainIsPrefix` | sensor/Magnetic.cpp:371-414 | one call returns the first part of the stream's output, leaves the rest to come, and has emptied the reader if it returns less than its room |
| `Magnetic.DrainIsQueueRead` | sensor/Magnetic.cpp:356-415 | to pollEvents the driver is a queue of events, fed by each fill and read from the front; a call that returns less than its room has emptied the reader |
| `Magnetic.OutputIsStreamOutput` | sensor/Magnetic.cpp:356-415 | over any run of calls the output is a prefix of what the kernel stream alone determines, and all of it once the reader is empty |
| `Magnetic.ChunkingDoesNotShow` | sensor/Magnetic.cpp:356-415 | two ways of reading the same stream return the same events and leave the same state |
| `Magnetic.SensorsDoNotInterfere` | sensor/Magnetic.cpp:380-401 | what one of the two sensors emits depends on its own events and the SYNs alone |
| `MagneticFrames.SensorEmitsFrames` | sensor/Magnetic.cpp:371-500 | on any stream from any pending records, a sensor emits of exactly the frames at whose SYN it is marked, the low half came last and the timestamp is newer than its enable time, the record with what was said last about each field, scaled by its own divider |
| `MagneticFrames.SensorEmitsFramesInAnyChunks` | sensor/Magnetic.cpp:356-415 | the same however reads and room cut the stream up, and all of it once the reader is empty |
| `MagneticFrames.LateMarkEmits` | sensor/Magnetic.cpp:466-494 | timestamps do not mark a sensor, so a record can be emitted at a later SYN, by an update alone |
| `Magnetic.MagneticSensor.ProcessEvent` | sensor/Magnetic.cpp:417-500 | the fields become the specified pending record |
| `Magnetic.MagneticSensor.ServeSyn` | sensor/Magnetic.cpp:380-401 | the loop over the sensors stores exactly the owed events in the output array and nothing else |
| `Magnetic.MagneticSensor.ReadEvents` | sensor/Magnetic.cpp:356-415 | returns, stores and leaves what one drain of the unread and newly read events does, and nothing on an error |
| `Acceleration.DrainIsPrefix` | sensor/Acceleration.cpp:304-349 | one call returns the first part of the stream's output and has emptied the reader if it returns less than its room |
| `Acceleration.DrainIsQueueRead` | sensor/Acceleration.cpp:291-350 | to pollEvents the driver is a queue of events, fed by each fill and read from the front; a call that returns less than its room has emptied the reader |
| `Acceleration.OutputIsStreamOutput` | sensor/Acceleration.cpp:291-350 | over any run of calls the output is a prefix of the stream's, and all of it once the reader is empty |
| `Acceleration.BodyCollects` | sensor/Acceleration.cpp:352-399 | the events of a frame, in any order, replace in the pending record the fields they have values for and leave the others as earlier frames left them |
| `Acceleration.FrameEmits` | sensor/Acceleration.cpp:312-337 | a SYN emits the pending record exactly when the low half came last, the sensor is enabled, the clock is past the enable time and the record is newer than that; what stays pending is stated in each case |
| `Acceleration.FramesAreEmitted` | sensor/Acceleration.cpp:304-399 | any stream, from any pending record, emits what is specified frame by frame: fields carried over, zero timestamps replaced by the clock, frames held back by an early clock |
| `Acceleration.FramesAreEmittedInAnyChunks` | sensor/Acceleration.cpp:291-350 | the same however reads and room cut the stream up |
| `Acceleration.EmittedSampleIsLatest` | sensor/Acceleration.cpp:352-378 | each emitted record is traced to the one frame that emits it, and its sample is the latest value of each field in the stream up to and including that frame |
| `Acceleration.FrameStandsAloneIff` | sensor/Acceleration.cpp:312-399 | what a frame emits is independent of everything before it exactly when it can emit nothing (sensor off, clock early, or cut), or has its own timestamp and either all codes or a timestamp too old to be emitted |
| `Acceleration.HalfFrameRepeatsSample` | sensor/Acceleration.cpp:312-337 | a frame with a timestamp only is emitted with the sample of the frame before |
| `Acceleration.FullFramesAreEmitted` | sensor/Acceleration.cpp:304-399 | if every frame that ends with the low half has all codes and no timestamp is zero, exactly those newer than the enable time are emitted, with the rebuilt timestamp; cut frames emit nothing |
| `Acceleration.AccelerationSensor.HandleEvent` | sensor/Acceleration.cpp:305-346 | one iteration of the loop does what the specification says, to fields, reader and output array |
| `Acceleration.AccelerationSensor.ReadEvents` | sensor/Acceleration.cpp:291-350 | returns, stores and leaves what one drain does, and nothing on an error |
| `PollEvents.RunConserves` | sensor/nusensors.cpp:548-621 | for each driver, what was stored in the array and what is left is what was there and what fill brought, in order |
| `PollEvents.PassStrandsNothing` | sensor/nusensors.cpp:556-591 | a pass never leaves a driver with events neither flagged nor answering for itself, and with room left it has emptied every driver and cleared every flag |
| `PollEvents.PassLeavesOthersAlone` | sensor/nusensors.cpp:558 | a driver without a flag and without events that it answers for is not read from |
| `PollEvents.RunStrandsNothing` | sensor/nusensors.cpp:548-621 | after a call no driver with events is left unasked although poll overwrites all flags; room left means that all are empty |
| `PollEvents.PassReturnsOffered` | sensor/nusensors.cpp:556-591 | a pass returns as many events as the asked drivers have, as far as there is room |
| `PollEvents.FailureIsReturned` | sensor/nusensors.cpp:599-605 | when poll fails in a round that is reached with room left, its error is returned and the events of the passes before are in the array |
| `PollEvents.CountIsReturnedIff` | sensor/nusensors.cpp:593-620 | the number of events stored is returned exactly when there is no such round |
| `PollEvents.EventsAreHiddenIff` | sensor/nusensors.cpp:593-620 | a call stores that many events and returns an error exactly when there is such a round with that many events before it |
| `PollEvents.FailureHidesEvent` | sensor/nusensors.cpp:593-605 | one driver with one event and a failing poll: the event is taken and an error returned |
| `PollEvents.CallersAreToldIff` | sensor/nusensors.cpp:548-621 | over any run of calls, the callers were told of every event taken from the drivers exactly when no failed call had stored one |
| `PollEvents.BooksAreRightIff` | sensor/nusensors.cpp:559-588 | the count of events is that of the events stored exactly when no asked driver fails, and then all are stored inside the array |
| `PollEvents.FailedDriverMovesBack` | sensor/nusensors.cpp:585-587 | a driver that fails with -EINVAL before one with an event: the count is -21 and the store is in front of the array |
| `PollEvents.PollContext.Serve` | sensor/nusensors.cpp:558-590 | one asked driver's events are stored, each with the offset added to the handle that its type selects and nothing else changed; its flag is cleared when it returned less than the room |
| `PollEvents.PollContext.Pass` | sensor/nusensors.cpp:556-591 | the array holds the events of the pass one behind the other, with handles offset in that way, and is unchanged elsewhere |
| `PollEvents.PollContext.Poll` | sensor/nusensors.cpp:548-621 | stores, leaves and returns what PollRun does: at most count events one behind the other, each with the offset added once to the handle that its type selects, and no other entry changed |
| `BatchFlush.ReadReturnsOwed` | sensor/BatchSensor.cpp:333-344 | a read returns the completions owed, lowest handle first, as many as there is room for, and the rest stays owed |
| `BatchFlush.ReadKeepsHonestIff` | sensor/BatchSensor.cpp:345-346 | a cleared pending flag still means that nothing is owed exactly when the count is not negative, or the last handle has requests, or there are none |
| `BatchFlush.NegativeCountLosesPending` | sensor/BatchSensor.cpp:333-346 | the input on which it fails |
| `BatchFlush.ReadWithRoomLeftClearsFlag` | sensor/BatchSensor.cpp:333-347 | a read that leaves room owes nothing afterwards and says so |
| `BatchFlush.FlagAfterRead` | sensor/BatchSensor.cpp:333-346 | a read with a count from zero up takes the flag down exactly when there is room for all that is owed and the handles before the last leave some |
| `BatchFlush.FlushesAreConserved` | sensor/BatchSensor.cpp:275-281 | for every handle over any run, requests before plus flush calls are completions emitted plus requests left |
| `BatchFlush.FlagStaysHonest` | sensor/BatchSensor.cpp:164-166 | over any run without negative counts, no pending events means that nothing is owed |
| `BatchFlush.BatchSensor.FlushHandle` | sensor/BatchSensor.cpp:275-281 | one more request for that handle and the flag up |
| `BatchFlush.BatchSensor.ReadEvents` | sensor/BatchSensor.cpp:323-348 | the nested loops over the counters store and leave what Read does |
| `Hwmsen.TimesAreSpaced` | sensor/Hwmsen.cpp:395-431 | a backfill is one delay apart up to the current time and starts no earlier than the last timestamp and less than a delay after it |
| `Hwmsen.BackfilledIff` | sensor/Hwmsen.cpp:395-407 | there is a backfill exactly for the first four sensors with a last timestamp, a delay other than a second, and a silence of more than 1.8 and less than 100 delays |
| `Hwmsen.ThreeDelaysAreFilled` | sensor/Hwmsen.cpp:397-424 | three delays of silence are filled with the missing samples |
| `Hwmsen.RampAt` | sensor/Hwmsen.cpp:409-410 | the driver's formula for the j-th missing timestamp |
| `Hwmsen.ServeOneKeeps` | sensor/Hwmsen.cpp:390-432 | serving one sensor, cut off by room or not, appends timestamps in order and records the last one emitted |
| `Hwmsen.ServeKeeps` | sensor/Hwmsen.cpp:385-446 | so does a whole SYN |
| `Hwmsen.ServeTakesDue` | sensor/Hwmsen.cpp:385-446 | a SYN emits what its marked sensors have due, in order, as far as there is room |
| `Hwmsen.SynEmitsDue` | sensor/Hwmsen.cpp:385-446 | with room, every marked sensor emits its missing samples and the current one, no other emits, no mark is left, and no gap is longer than 1.8 delays unless the silence was too long or the delay is a second |
| `Hwmsen.InactiveEmitsNothing` | sensor/Hwmsen.cpp:388 | with no active sensor nothing is emitted and the marks stay |
| `Hwmsen.TimestampsNeverDecrease` | sensor/Hwmsen.cpp:385-446 | over any run with a clock that does not go back, timestamps of a sensor never decrease, across enables too, and last_ts is the last one emitted since the enable |
| `Hwmsen.Driver.EnableSensor` | sensor/Hwmsen.cpp:241-336 | enabling resets the last timestamp of that sensor only, also when the ioctl fails and the sensor stays inactive; disabling makes it inactive in any case |
| `Hwmsen.Driver.ChangeDelay` | sensor/Hwmsen.cpp:607-630 | the delay changes, except for proximity and for a negative one |
| `Hwmsen.Driver.Backfill` | sensor/Hwmsen.cpp:408-421 | stores the missing timestamps, as many as there is room for |
| `Hwmsen.Driver.ServeSyn` | sensor/Hwmsen.cpp:385-446 | stores and leaves what Serve does, never more than the count, and with room everything that is due |
| `MsgRing.SendKeeps` | nfc/mtk_nfc_sys.c:665-699 | a message goes to the end of the queue exactly when the ring has room for it, and the send is successful when its signal is too |
| `MsgRing.PopKeeps` | nfc/mtk_nfc_sys.c:884-904 | a receive gives the oldest accepted message not received, and fails on an empty ring only |
| `MsgRing.MoveKeeps` | nfc/mtk_nfc_sys.c:665-904 | every step keeps count, order and the link between a blocked consumer and an empty ring |
| `MsgRing.SignalledWakeDelivers` | nfc/mtk_nfc_sys.c:865-887 | a wakeup after a signal always finds a message; only a spurious one can fail |
| `MsgRing.RingIsQueue` | nfc/mtk_nfc_sys.c:665-904 | in every interleaving, with signals that fail or not, received followed by queued is what was put in, cnt is the distance of the pointers and within 0..size, and a blocked consumer leaves a message behind exactly when the last message came without its signal; with signals that succeed every queued message was reported as sent |
| `MsgRing.FailedSignalIsMissed` | nfc/mtk_nfc_sys.c:688-696 | a run in which a signal fails: the consumer stays blocked on a ring with a message, and its sender is told of an error |
| `MsgRing.MessageRing.SendMsg` | nfc/mtk_nfc_sys.c:643-699 | the ring in memory becomes the specified one, also when the signal fails |
| `MsgRing.MessageRing.Recv` | nfc/mtk_nfc_sys.c:862-904 | waits exactly on an empty ring, fails when the wait does, and otherwise delivers as specified |
| `MsgRing.MessageRing.Initialize` | nfc/mtk_nfc_sys.c:574-582 | an empty ring with no waiting consumer |
| `Lights.ThreeBlinks` | liblights/lights.c:228-358 | two LEDs off and one set, caches in step with the devices, and old delays kept exactly by a LED that was blinking |
| `Lights.SpeakerShows` | liblights/lights.c:429-488 | the LED of the color, red before green before blue and none without alpha, blinks or is on as the light state's flash fields say, and the others are dark; a LED that was not blinking gets the delays given |
| `Lights.HandleShows` | liblights/lights.c:490-499 | battery before notification, and fresh delays whenever the battery is unlit |
| `Lights.LedsFollowLatestStates` | liblights/lights.c:501-529 | over any run, caches agree with devices, the LED that the color bits of the battery choose, or of the notification when the battery has no color, is the only one on, it blinks exactly with timed flashing and two nonzero delays, and an unlit battery means current notification delays |
| `Lights.GreenNotificationBlinks` | liblights/lights.c:429-529 | a green notification with unequal delays |
| `Lights.TrackballMakesNoDifference` | liblights/lights.c:507-510 | the extra speaker light call for devices with a trackball light changes nothing |
| `Lights.BatteryDelaysFreshIff` | liblights/lights.c:242-243 | a blinking battery state gets its delays onto the device exactly when the LED was not blinking or had them already |
| `Lights.BatteryDelaysStale` | liblights/lights.c:242-243 | the run in which it does not |
| `Lights.LightsModule.BlinkLed` | liblights/lights.c:228-270 | one blink function writes cache and device as specified and reports whether it wrote |
| `Lights.LightsModule.SetSpeakerLight` | liblights/lights.c:429-488 | the module state becomes the specified one |
| `Lights.LightsModule.HandleTrackballLight` | liblights/lights.c:360-378 | writes the attention mode, 0 for mode 7 with the backlight on, and nothing for mode -1, the only value that g_trackball ever has |
| `Lights.LightsModule.SetLightBattery` | liblights/lights.c:501-513 | the module state becomes the specified one, with or without the trackball light |
| `Lights.LightsModule.SetLightNotifications` | liblights/lights.c:515-529 | the module state becomes the specified one, and the trackball light gets the attention mode, 0 for mode 7 with the backlight on |

## Left out

- CcbRing.Channel.WriteDone: the buffer table and `buffer_id` are not modelled; the source tests `buffer_id > buffer_num`, so the caller has to keep it below.
- CcbFifo.RingIsFifo: the modem is the mirror of the visible code, two pages are the least, and no page may be left over as ALLOC at the start.
- CcbInterleaving.InterleavingsAreFifo: loads and stores are sequentially consistent and happen in program order; the loads named in Coherent are excluded because the property fails on them.
- CcbLayout.InitUser: the memory has to reach as far as the walk goes, also behind a mapping that is too short; what that memory belongs to is not part of this model.
- CcbLayout.Register: says nothing about the memory after -EFAULT; page sizes are positive; malloc, the device node and an earlier registration are not part of this model.
- ParseInfo.ParseInfo: says nothing about a text on which the scan leaves its buffers; LookupStaysInsideIff says which printed files those are.
- EventReader.CircularReader.Next: nothing is said about a reader that it has broken; Hwmsen::readEvents can do so, it calls it twice for an unknown event type (sensor/Hwmsen.cpp:448-453), which is not part of this model.
- Magnetic.OutputIsStreamOutput: enable times are fixed during the run; enable, batch and setDelay of the driver write sysfs files and are left out.
- Acceleration.FramesAreEmitted: the enable time and the divider are fixed during the run; enable and setDelay write sysfs files and are left out.
- PollEvents.PollContext.Poll: each readEvents returns between 0 and count events, as Magnetic and Acceleration do when their reads succeed (DrainIsQueueRead); what a negative result does to the bookkeeping is stated on results alone (BooksAreRightIff); the wake pipe only decides whether poll returns.
- BatchFlush.BatchSensor.ReadEvents: only the path without a batch device; the timestamp of a completion is not modelled.
- Hwmsen.TimestampsNeverDecrease: the float quotient is exact, delays are positive and small enough that 18 times the delay does not wrap in 64 bits.
- Hwmsen.Driver.ChangeDelay: a delay of zero, which the source stores, is left out: it makes the quotient undefined in C.
- CcbLayout.CheckUser: the memory reaches to the end of the layout; the source does not compare the mapping with it.
- MsgRing.RingIsQueue: one consumer for each ring, and waits succeed in a run, their failure being in Recv only; a critical section under the mutex is one step.
- Lights.LedsFollowLatestStates: writes to the LED files succeed and the LEDs start dark.
- The three NFC rings are the same code on separate memory; one of them is modelled.
- NFC timers, socket messages and thread creation; the remaining sensor drivers, whose loops are copies of these with less state or do not honour the count.
- Sample values are divided as reals, not as floats; event codes of linux/hwmsensor.h are names.
- hwcomposer, memtrack, power and gralloc_extra are tables and forwarding.
