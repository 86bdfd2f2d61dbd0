# DxWiFi file transfer: a verified model

DxWiFi broadcasts files over a one-way 802.11 link. A transmitter cuts a file into blocks, frames them,
optionally numbers them, and puts preambles before and end-of-transmission (EOT) frames behind them. A
receiver buffers the frames it sees, sorts them by number, may fill gaps with noise, and writes one output
per file. This project models that protocol from `tx.c` to `rx.c`, with the array heap it is built on, and
proves what arrives of what was sent.

`dafny verify dfyconfig.toml` checks everything.

## How it is organised

| modules | what they hold |
|---|---|
| `Heap` | the generic array heap and heap sort: functions on sequences, their laws, and the class that works in place |
| `Machine`, `Wire` | fixed-width integers, byte order, the layout of a frame, what a payload means |
| `ReceiverModel` | one capture as functions on values: drain, buffering, control frames, capture loop, directory loop |
| `Receiver` | the packet buffer, the heap of nodes that point into it, and the loops, in place; every method is proved equal to its function in `ReceiverModel` |
| `Draining`, `Windows`, `Delivery`, `Overflow` | what a capture writes, without heap and buffer: greedy windows, sorted, gaps filled; what is dropped when more short frames arrive than the heap holds |
| `GapAccounting`, `LossAccounting`, `NoisePlacement`, `Filling` | loss counting of a drain and of a capture, how much noise is added and where blocks and noise lie, in a drain and in a capture |
| `Schedules`, `Conservation`, `Radiotap` | how a capture ends under any schedule, byte conservation, irrelevance of EOT frames, poll errors and radiotap headers |
| `TransmitterModel`, `Transmitter`, `Transmission`, `TransmitSchedules`, `TransmitProgram` | the transmit loop as a function and in place, what it reads, how it ends under any schedule, handlers and headers, the list of files |
| `Splitting`, `Dispatching`, `Channel`, `Reception` | how frames and dispatches are split over captures, a channel that loses frames, reception of data in order |
| `RoundTrip`, `Reordering` | one file in order of sending, and in any order of arrival |
| `Separation`, `EndToEnd`, `Transfer` | what the outputs say about the dispatches, several files over a lossy channel, and both programs run one after the other |

The environment is a schedule of events: a timeout, a failed poll, a dispatch of frames or a ready input,
each possibly with a stop request. Theorems quantify over every schedule unless they name its form. A
schedule that has run out is the end of a savefile on the receiving side and an input that is always ready
on the transmitting side.

## What the code does where its documentation says otherwise

- `check_frame_control` divides integers (`libdxwifi/receiver.c:247-250`), so the threshold 0.75 asks for all
  256 bytes to match. Every threshold in [0, 1) means the same.
- EOT frames never end a capture, although `libdxwifi/receiver.c:48` says so. A preamble behind data does.
  Deleting all EOT frames changes no output.
- A stop request during a dispatch ends the capture but leaves its status as it was, so the directory loop goes
  on with the next output (`Schedules.CaptureEndsThere`, `Schedules.DirectoryGoesOn`); the transmitter corrects
  its status in that case, the receiver does not. A poll error ends no capture and costs no byte, but the
  directory loop ends with the capture that met it (`Schedules.PollErrorLeavesBytes`).
- A poll error ends a transmission that has not read anything yet. Behind the first block it only spoils the
  status: the whole input is still sent (`TransmitSchedules.PollErrorFirst`,
  `TransmitSchedules.PollErrorBehindBlock`).
- With the order flag set, EOT frames carry the number of the last data frame, because they are sent from the
  same buffer (`TransmitProgram.HeadersAreProper`).
- `libdxwifi/details/heap.h:20-22` asks for a partial order. `Heap.RootMinimalExactlyForWeakOrders` shows
  that the root is minimal in every heap exactly for strict weak orders, and `Heap.PartialOrderIsNotEnough`
  gives a heap and a push that go wrong.
- `heap_sort` with `compare` meaning "less" sorts in descending order and needs at least one element.
- A last block of 256 bytes that are all 0xff or all 0xaa is taken for a control frame. For a file read in
  full blocks this is the only case in which the round trip in order fails (`RoundTrip.RoundTripExactly`).
- The heap holds 20401 nodes, and a packet buffer of 5 MiB holds many more short frames than that. Such
  frames come from short reads, as in stream mode (`dxwifi/tx/tx.c:413-415`). The heap drops what it has no
  room for (`libdxwifi/details/heap.c:77`), yet counts it as captured. Delivery in order is complete if and
  only if no window holds more frames than the heap (`Delivery.UnorderedIsFifo`, `Reception.InOrderReception`);
  `Overflow.ShortFramesAreLost` is an input that is not delivered.
- Out of order a round trip also fails when a preamble arrives behind data, or when a block arrives in a later
  window than one that should follow it (`Reordering.ReorderedRoundTripExactly`,
  `Reordering.PreamblesLastFails`, `Reordering.LateBlockIsMisplaced`).
- A capture ends with the dispatch that holds the preamble, so data behind it in the same dispatch goes to the
  output before (`Dispatching.DispatchesKeepDataExactly`, `EndToEnd.FilesArriveExactly`,
  `Channel.FilesRunTogether`).
- Noise takes the size of the block behind the gap, so a short last block behind a gap is misplaced
  (`NoisePlacement.BlockBehindGapKeepsItsPlaceExactly`).
- Numbers restart at every drain: what is lost at the start of a window is neither counted nor filled, and
  counts and places are right if and only if every window begins one after the last number of the window
  before it (`LossAccounting.LossCountIsExact`, `Filling.CaptureKeepsPlacesExactly`,
  `LossAccounting.LossBetweenWindowsIsMissed`).
- A repeated number counts as minus one block, so the loss counter of a drain is the number of absent numbers
  if and only if no number repeats (`GapAccounting.DrainCountsAbsentNumbers`,
  `GapAccounting.RepeatedNumberIsMiscounted`).
- In unordered mode the 32-bit packet counter is the sort key; order holds up to 2^31 frames.

## Model

| member | source | states |
|---|---|---|
| `Heap.BinaryHeap.Heapify` | libdxwifi/details/heap.c:32-47 | sifting down in the array, the part behind the heap untouched |
| `Heap.BinaryHeap.Push` | libdxwifi/details/heap.c:73-91 | the new contents; a full heap stays as it is |
| `Heap.BinaryHeap.Pop` | libdxwifi/details/heap.c:94-110 | returns the root and says exactly when there is one |
| `Heap.PushAddsOne` | libdxwifi/details/heap.c:73-91 | push adds exactly one element to the multiset, for any comparator |
| `Heap.PopRemovesRoot` | libdxwifi/details/heap.c:94-110 | pop removes exactly the root, for any comparator |
| `Heap.SiftDownKeepsHeap` | libdxwifi/details/heap.c:32-47 | restores heap order below an index when only that index breaks it |
| `Heap.PushKeepsHeap` | libdxwifi/details/heap.c:73-91 | heap order is an invariant of push |
| `Heap.PopKeepsHeap` | libdxwifi/details/heap.c:94-110 | heap order is an invariant of pop |
| `Heap.RootIsMinimal` | libdxwifi/details/heap.c:94-110 | under a strict weak order pop returns a minimal element |
| `Heap.RootMinimalExactlyForWeakOrders` | libdxwifi/details/heap.h:19-24 | for a strict partial order: roots of all heaps are minimal if and only if the order is weak |
| `Heap.PartialOrderIsNotEnough` | libdxwifi/details/heap.h:19-24 | a partial order, a heap and a push after which the root is not minimal |
| `Heap.HeapOrderIsSortedPermutation` | libdxwifi/details/heap.c:73-110 | pushing everything and popping until empty sorts, and loses and invents nothing |
| `Heap.SortedPermutationIsUnique` | libdxwifi/details/heap.c:73-110 | without ties the popping order is determined by the contents alone |
| `Heap.Build` | libdxwifi/details/heap.c:124-126 | the build phase makes a heap out of a permutation of the input |
| `Heap.Shrink` | libdxwifi/details/heap.c:128-132 | the shrinking phase moves root after root behind the heap |
| `Heap.ShrinkAllDescends` | libdxwifi/details/heap.c:128-132 | from a heap the shrinking phase ends in descending order |
| `Heap.HeapSort` | libdxwifi/details/heap.c:113-133 | terminates with a permutation, in which nothing precedes a greater element under a strict weak order; the rest of the array is untouched |
| `Receiver.CheckFrameControl` | libdxwifi/receiver.c:220-255 | for every threshold in [0, 1) the counting loop returns EOT if and only if the payload is 256 bytes 0xaa, and preamble if and only if it is 256 bytes 0xff |
| `Receiver.FrameController.HandleFrameControl` | libdxwifi/receiver.c:271-297 | only a preamble behind data ends the capture |
| `Receiver.StackedSlicesAreDisjoint` | libdxwifi/receiver.c:373-399 | the slices of all nodes lie below the write position and do not overlap |
| `Receiver.OldViewsStay` | libdxwifi/receiver.c:373-377 | writing behind the write position leaves every buffered payload as it was captured |
| `Receiver.FrameController.CopyIn` | libdxwifi/receiver.c:373-395 | the node of a copied frame shows its payload, and the pending payloads are unchanged |
| `Receiver.FrameController.WriteNode` | libdxwifi/receiver.c:317-339 | noise for the gap, loss count, payload |
| `Receiver.FrameController.PopAndWrite` | libdxwifi/receiver.c:313-340 | the drain loop empties the heap and writes its contents in popping order |
| `Receiver.FrameController.DumpPacketBuffer` | libdxwifi/receiver.c:308-342 | refines the functional drain; resetting the write position destroys nothing that is still pending |
| `Receiver.FrameController.StoreFrame` | libdxwifi/receiver.c:373-403 | buffers the payload under its key and counts the frame |
| `Receiver.FrameController.ProcessFrame` | libdxwifi/receiver.c:359-407 | one frame refines one step of the functional model and keeps the separation of buffer and heap |
| `Receiver.FrameController.TakeTurn` | libdxwifi/receiver.c:515-546 | one turn of the capture loop, with timeout, poll error, stop and end of savefile |
| `Receiver.DxwifiReceiver.CaptureEvents` | libdxwifi/receiver.c:515-546 | the capture loop over any schedule |
| `Receiver.DxwifiReceiver.ActivateCapture` | libdxwifi/receiver.c:497-560 | capture and final flush from a fresh frame controller |
| `Receiver.DxwifiReceiver.OpenFileAndCapture` | dxwifi/rx/rx.c:168-182 | one capture into one fresh output |
| `Receiver.DxwifiReceiver.CaptureInDirectory` | dxwifi/rx/rx.c:195-205 | one output per capture while captures end normally, over any schedule; terminates |
| `Draining.DrainBytes` | libdxwifi/receiver.c:308-342 | what a drain appends to the output |
| `Draining.DistinctDrainOrder` | libdxwifi/receiver.c:315-340 | without repeated numbers a drain writes the one sorted permutation of what is pending |
| `Draining.InOrderDrain` | libdxwifi/receiver.c:308-342 | blocks pending in increasing order without gaps are written as they came |
| `Windows.RunRefinesWindows` | libdxwifi/receiver.c:308-407 | from any reachable state the rest of a run writes what greedy windows prescribe |
| `Delivery.CaptureIsWindowedSort` | libdxwifi/receiver.c:308-407 | a capture equals: cut greedily by capture length, sort each window, fill gaps, concatenate |
| `Delivery.CaptureSortsItsWindows` | libdxwifi/receiver.c:308-407 | without mention of the heap: there are sorted permutations of the windows, one each, whose bytes make up the output |
| `Delivery.WindowOrder` | libdxwifi/receiver.c:315-340 | a window without repeated numbers has one sorted permutation only |
| `Delivery.AnySortingIsWritten` | libdxwifi/receiver.c:308-407 | if numbers repeat in no window, any sorted permutations of the windows give the output |
| `Schedules.CaptureIsRun` | libdxwifi/receiver.c:515-549 | a capture under any schedule writes and counts what one run over the frames it saw does; those are the frames dispatched up to the first timeout, stop request or ending preamble |
| `Schedules.CaptureEndsThere` | libdxwifi/receiver.c:515-546 | behind dispatches and poll errors that do not end it, a timeout, a stop request or the next file's preamble ends the capture with that turn: the rest of the schedule is untouched, all frames dispatched so far are written, and the status is timed out, deactivated, an earlier error, or normal |
| `Schedules.CaptureEndsWithSchedule` | libdxwifi/receiver.c:537-543 | otherwise it ends, deactivated, with the savefile |
| `Schedules.EveryCaptureEnds` | libdxwifi/receiver.c:515-546 | every schedule is of one of these two kinds |
| `Schedules.DirectoryGoesOn` | dxwifi/rx/rx.c:195-205 | the directory loop goes on behind an ending preamble and behind a stop request during a dispatch, unless the capture met a poll error; everything else ends it |
| `Schedules.PollErrorLeavesBytes` | libdxwifi/receiver.c:524-532 | deleting a poll error without a stop request from any schedule changes at most the status of a capture |
| `Delivery.WindowsCoverArrivals` | libdxwifi/receiver.c:369-396 | the windows together are exactly the data frames, in order of arrival |
| `Delivery.HeapNeverOverflows` | libdxwifi/receiver.c:26 | with an admissible buffer and at most one frame shorter than 257 bytes in every window no window exceeds the heap capacity |
| `Delivery.FewArrivalsFit` | libdxwifi/details/heap.c:77 | nor with any frames at all, as long as there are no more of them than the heap has room for |
| `Delivery.UnorderedIsFifo` | libdxwifi/receiver.c:385-396 | an unordered capture of up to 2^31 data frames writes the payloads in order of arrival if no window holds more frames than the heap, and, no payload being empty, only then |
| `Overflow.OneBufferExactly` | libdxwifi/details/heap.c:77 | for data that fits the packet buffer at once: if and only if there are no more frames than heap places |
| `Overflow.ShortFramesAreLost` | libdxwifi/receiver.c:26 | one-byte frames, one more than heap places, in a buffer of the greatest admissible size: not all of them are delivered |
| `Delivery.KeysIncreaseExactlyUntilTheSignFlips` | libdxwifi/receiver.c:385-387 | consecutive keys increase unless the counter stands at 2^31 - 1 |
| `Delivery.ArrivalOrderIsIrrelevant` | libdxwifi/receiver.c:369-396 | in ordered mode, if everything fits one window and numbers are distinct, every permutation of the arrivals gives the same output |
| `GapAccounting.LostTelescopes` | libdxwifi/receiver.c:313-339 | the loss counts of a drain telescope modulo 2^32, whatever the numbers are |
| `GapAccounting.DrainCountsSpan` | libdxwifi/receiver.c:313-339 | an ordered drain of n blocks from fmin to fmax adds fmax - fmin + 1 - n |
| `GapAccounting.DrainCountsAbsentNumbers` | libdxwifi/receiver.c:313-339 | that is the number of absent numbers less the repeats; so the counter is right if no number repeats, and, below 2^32 blocks, only then |
| `GapAccounting.RepeatedNumberIsMiscounted` | libdxwifi/receiver.c:313-339 | a drain of twice the same number, in which nothing is absent and the counter goes down by one |
| `GapAccounting.NoiseFillsAbsentNumbers` | libdxwifi/receiver.c:320-330 | in a sorted window with noise there is one noise block for every absent number, even when numbers repeat |
| `GapAccounting.DrainFillsAbsentNumbers` | libdxwifi/receiver.c:308-342 | a drain with noise adds the absent numbers times the block size to the noise counter, and to the output with the pending blocks |
| `LossAccounting.RunCountsLosses` | libdxwifi/receiver.c:308-407 | from any reachable state a run adds the spans of its windows less their blocks to the loss counter, modulo 2^32 |
| `LossAccounting.LossCountIsExact` | libdxwifi/receiver.c:313 | for distinct numbers in order of arrival the count of a capture is fmax - fmin + 1 - n if and only if every window begins one after the last number of the window before it |
| `LossAccounting.LossBetweenWindowsIsMissed` | libdxwifi/receiver.c:313 | two frames numbered 0 and 2 in different windows: nothing is counted and no noise is written |
| `Filling.CaptureFillsExactly` | libdxwifi/receiver.c:308-407 | for numbers below 2^31 - 1 in order of arrival, a capture with noise writes all its blocks with every gap between them filled if and only if every window begins one after the last number of the window before it; otherwise its output is shorter |
| `Filling.CaptureKeepsPlacesExactly` | libdxwifi/receiver.c:320-330 | under the same condition, and only then, every number between the first and the last has its place in the output of the whole capture, holding its block or noise |
| `Filling.CaptureLengthIsExact` | libdxwifi/receiver.c:320-330 | for blocks of one size the output is as long as the numbers it spans under the same condition, and only then |
| `NoisePlacement.NoiseKeepsPositions` | libdxwifi/receiver.c:311-340 | in a drain of distinct numbers block f starts (f - fmin) blocks behind the earlier output, and the places of absent numbers hold the noise value |
| `NoisePlacement.BlockBehindGapKeepsItsPlaceExactly` | libdxwifi/receiver.c:323-328 | in a drain of any number of full blocks and a last one, the last one lands where its number says if and only if it has full size or follows its predecessor directly |
| `Conservation.RunConserves` | libdxwifi/receiver.c:328-402 | after every step, captured payload bytes = written + pending, and output bytes = written + noise |
| `Conservation.CaptureConserves` | libdxwifi/receiver.c:497-560 | at the end of a capture under any schedule the output is noise and the payload that the heap kept, modulo 2^32; that is all captured payload if no window overflows the heap, and, no payload being empty, only then |
| `Conservation.RunCounts` | libdxwifi/receiver.c:399-402 | packets, capture lengths and payload sizes of exactly the data frames are added up |
| `Conservation.EotFramesAreIrrelevant` | libdxwifi/receiver.c:286-291 | deleting every EOT frame, and every dispatch of nothing else, from any schedule leaves all outputs as they were |
| `Conservation.UnorderedLosesNothing` | libdxwifi/receiver.c:318-334 | an unordered capture under any schedule counts no lost block and adds no noise |
| `Radiotap.HeadersDoNotMatter` | libdxwifi/receiver.c:158-166 | replacing the radiotap headers and checksums of all frames leaves the output of a capture as it was, as long as the windows are cut at the same frames |
| `Radiotap.HeadersDoNotMatterInOrder` | libdxwifi/receiver.c:158-166 | for data in order that fits the heap both ways, whatever the cuts |
| `Radiotap.HeadersDoNotMatterInDirectory` | dxwifi/rx/rx.c:195-205 | the same for all outputs of a directory capture in any dispatches |
| `TransmitterModel.InvokeKeepsPayload` | libdxwifi/transmitter.c:207-228 | a pipeline of handlers that keep the payload keeps it |
| `TransmitterModel.InvokeStamps` | libdxwifi/transmitter.c:207-228 | the number stamped by one handler survives the handlers behind it |
| `TransmitterModel.ProgramHandlers` | dxwifi/tx/tx.c:177-202 | the numbering handler writes the frame count in network order into four bytes and changes no other; the delay handler changes nothing |
| `TransmitterModel.HeaderReadsBack` | libdxwifi/transmitter.c:61-125 | flags, transmission flags, frame control and address can be read back; the rate if and only if it is below 128 Mbit/s; version, length, presence bits, duration, broadcast addresses and sequence control in literal bytes |
| `Machine.BigEndian32RoundTrip` | libdxwifi/receiver.c:85-88 | the number read by the receiver is the number packed by the transmitter |
| `Wire.FrameParts` | libdxwifi/receiver.c:158-166 | behind a radiotap header of any length the receiver finds the payload and the number in bytes 6 to 9 of the MAC header |
| `Transmitter.CutIsFrame` | libdxwifi/transmitter.c:248-259 | the injected bytes parse back to the payload and number that were put in, whatever is in the checksum slot |
| `Transmitter.DxwifiTransmitter.constructor` | libdxwifi/transmitter.c:333-341 | a transmitter without handlers |
| `Transmitter.DxwifiTransmitter.InvokeHandlers` | libdxwifi/transmitter.c:207-228 | the loop over the slots refines the pipeline function |
| `Transmitter.DxwifiTransmitter.InjectPacket` | libdxwifi/transmitter.c:248-259 | header, payload and checksum slot go out as one frame |
| `Transmitter.DxwifiTransmitter.SendControlFrame` | libdxwifi/transmitter.c:281-295 | r + 1 frames of 256 bytes of the control value |
| `Transmitter.DxwifiTransmitter.SendBlock` | libdxwifi/transmitter.c:463-477 | the frame carries the block and the frame count; header bytes that the handlers keep stay as they were; every handler before and behind the injection sees the counters of its time; the counters advance |
| `Transmitter.DxwifiTransmitter.TakeTurn` | libdxwifi/transmitter.c:444-479 | one turn of the loop: timeout, poll error, block or end of input |
| `Transmitter.DxwifiTransmitter.TransmitBlocks` | libdxwifi/transmitter.c:444-479 | under any schedule the data frames are numbered from 0 on and carry the blocks of the functional loop |
| `Transmitter.DxwifiTransmitter.StartTransmission` | libdxwifi/transmitter.c:410-496 | r + 1 preambles, the data, r + 1 EOT frames; bytes sent = bytes read + 40 per frame; the final state; under handlers that keep the header, the configured header in every frame |
| `Transmitter.RecordAccounts` | libdxwifi/transmitter.c:471-474 | every turn keeps the accounting |
| `Transmission.DataIsPrefixOfInput` | libdxwifi/transmitter.c:444-479 | under any schedule the payloads concatenate to a prefix of the input |
| `Transmission.NormalStatusMeansAllSent` | libdxwifi/transmitter.c:479-491 | a transmission that ends in state NORMAL has sent the whole input |
| `Transmission.AtMostOneBlockAfterStop` | libdxwifi/transmitter.c:444-479 | a stop request or timeout in some turn lets through at most one more block |
| `Transmission.LoopBlocksInRange` | libdxwifi/transmitter.c:462-463 | no block is empty or longer than the block size |
| `Transmission.FullReadsMakeChunks` | libdxwifi/transmitter.c:444-479 | full reads send the input in blocks of the block size |
| `Transmission.ChunksAreFull` | libdxwifi/transmitter.c:462-463 | all blocks but the last are full, and together they are the input |
| `Transmission.ChunkCount` | libdxwifi/transmitter.c:462-474 | an input of n bytes gives ceil(n / block size) blocks |
| `TransmitSchedules.ReadyInputIsSent` | libdxwifi/transmitter.c:462-479 | whatever the sizes of the reads, an undisturbed transmission sends the whole input, in pieces as they come, and ends in state NORMAL |
| `TransmitSchedules.TransmissionEndsThere` | libdxwifi/transmitter.c:444-491 | behind reads that find input, a timeout, a stop request or the end of the input ends the transmission with that turn; the blocks sent are the pieces read up to there, and the state is timed out, an earlier poll error, deactivated, or normal |
| `TransmitSchedules.TransmissionEndsWithInput` | libdxwifi/transmitter.c:444-491 | otherwise the rest of the input goes out in full blocks |
| `TransmitSchedules.EveryTransmissionEnds` | libdxwifi/transmitter.c:444-479 | every schedule is of one of these two kinds |
| `TransmitSchedules.PollErrorFirst` | libdxwifi/transmitter.c:452-459 | a poll error ahead of the first read: nothing is sent, and the state is ERROR |
| `TransmitSchedules.PollErrorBehindBlock` | libdxwifi/transmitter.c:452-479 | a poll error behind a block: the same blocks are sent as without it, and the state is ERROR |
| `TransmitProgram.FullReadsAreAccounted` | libdxwifi/transmitter.c:462-474 | frame count and byte counts after full reads, in closed form |
| `TransmitProgram.AttachHandler` | libdxwifi/transmitter.c:143-158 | fills the first empty slot, or reports that there is none and changes nothing |
| `TransmitProgram.AttachProgramHandlers` | dxwifi/tx/tx.c:399-409 | the program's pipeline keeps payloads, and numbers frames when the order flag is set |
| `TransmitProgram.HeadersAreProper` | libdxwifi/transmitter.c:434-436 | every sent frame has the configured header but for the number field: broadcast in preambles, the number of a data frame if the order flag is set, at last that of the last data frame |
| `TransmitProgram.TransmitStream` | dxwifi/tx/tx.c:413-415 | stream mode under the program's handlers: a transmission with such headers, of the whole input if undisturbed, whatever the sizes of the reads |
| `TransmitProgram.TransmitFile` | dxwifi/tx/tx.c:265-281 | the retransmit loop of one file, under any behaviour of seek and transmission, with count -1 for every run that ends |
| `TransmitProgram.TransmitFiles` | dxwifi/tx/tx.c:255-285 | the loop over the files makes the passes of the functional model and reports the state of the last one |
| `TransmitProgram.FilesAreSentInOrder` | dxwifi/tx/tx.c:255-285 | the passes made are exactly those that are to be made, in list order (count + 1 of every file that opens; with -1 those over the first that opens, for every run that ends), up to the first that does not end normally; all but the last end normally, and the status of the last is the result; with -1 and a file that opens it is never normal |
| `TransmitProgram.PassesFollowPlaylist` | dxwifi/tx/tx.c:255-285 | pass i that is made sends a prefix of entry i of the playlist, and all of it if it ends normally; with -1 for every run that ends |
| `TransmitProgram.EveryFileIsRepeated` | dxwifi/tx/tx.c:255-285 | for a count c >= 0 the playlist holds the content of every file that opens c + 1 times, in list order; for a count below -1 nothing |
| `TransmitProgram.PassesAreCounted` | dxwifi/tx/tx.c:255-285 | there is one pass to be made for every entry of the playlist |
| `TransmitProgram.SeekFailureEndsList` | dxwifi/tx/tx.c:268-273 | a failed seek is the last pass made, and the program's state is ERROR |
| `TransmitProgram.FirstSeekFails` | dxwifi/tx/tx.c:268-273 | if the first seek fails, nothing at all is sent |
| `Splitting.DirectorySplitsAtPreambles` | dxwifi/rx/rx.c:195-205 | one frame at a time, a directory capture writes one output per segment, where segments end behind preambles that follow data |
| `Splitting.DirectorySplitsAtDispatches` | dxwifi/rx/rx.c:195-205 | with dispatches of any sizes, one output per segment, where segments end with the dispatch in which a preamble follows data |
| `Splitting.EndsExactlyBehindData` | libdxwifi/receiver.c:276-283 | while the packet counter does not wrap around, a capture ends if and only if a preamble stands behind a data frame |
| `Splitting.RunShows` | libdxwifi/receiver.c:271-297 | the flags for uplink and end of transmission say whether a preamble or an EOT frame has been seen |
| `Splitting.OneOutputExactly` | dxwifi/rx/rx.c:195-205 | there is one output only if and only if no frame ends a capture |
| `Dispatching.DispatchesKeepDataExactly` | libdxwifi/receiver.c:515-534 | every capture gets the data it gets frame by frame if and only if no dispatch holds data behind the preamble that ends a capture |
| `Dispatching.CleanDispatchesDoNotMatter` | libdxwifi/receiver.c:515-534 | two such schedules with the same frames give the same outputs |
| `Splitting.UnsplitCapture` | libdxwifi/receiver.c:515-549 | without such a preamble the sizes of the dispatches do not matter |
| `Channel.SegmentsGroupFiles` | libdxwifi/receiver.c:271-297 | the data of every segment, for files sent one after the other over a lossy channel |
| `Channel.GroupsAreFilesExactly` | libdxwifi/receiver.c:276-283 | when grouping by preambles separates the files |
| `Channel.OneOutputPerFileExactly` | dxwifi/rx/rx.c:195-205 | as many outputs as files if and only if every file but the first shows a preamble and every file but the last shows data |
| `Channel.FilesSeparateExactly` | libdxwifi/receiver.c:515-534 | files that can be told apart frame by frame are told apart if and only if no dispatch holds data behind the preamble that ends a capture |
| `Channel.FilesRunTogether` | libdxwifi/receiver.c:515-534 | two files in one dispatch: all data goes to the first output, and the second is empty |
| `Reception.ControlFramesAreRecognised` | libdxwifi/transmitter.c:281-295 | what the transmitter sends as control frames is received as such |
| `Reception.BlocksAreData` | libdxwifi/receiver.c:231-252 | data frames are received as data if and only if no block is 256 bytes 0xff or 256 bytes 0xaa |
| `Reception.InOrderReception` | libdxwifi/receiver.c:308-407 | data in order is written as it came, in both modes, if no window holds more frames than the heap, and, no payload being empty, only then |
| `Reception.LossyReception` | libdxwifi/receiver.c:359-407 | what is left of the frames of one file, read in pieces of any sizes, yields what is left of its blocks under the same condition, and only then |
| `Reception.SurvivorsFitHeap` | libdxwifi/receiver.c:26 | it fits if blocks are long and the buffer admissible, or if there are no more blocks than the heap has room for, whatever is lost |
| `Reception.BufferSizeIsIrrelevant` | libdxwifi/receiver.c:369-371 | any two packet buffers under which the data fits the heap give the same unordered output |
| `RoundTrip.TransmissionIsReceived` | libdxwifi/receiver.c:359-407 | a file read in pieces of any sizes, none control data, and received without loss comes out unchanged for any dispatch sizes if no window holds more frames than the heap, and, no piece being empty, only then |
| `RoundTrip.SingleFileRoundTrip` | test/test_tx_rx.py:80-102 | a file sent in full blocks and received without loss comes out unchanged, for any dispatch sizes, admissible buffer, mode and noise setting |
| `RoundTrip.LastBlockIsLost` | libdxwifi/receiver.c:231-252 | a last block that looks like a control frame is missing from the first output, whatever the dispatches |
| `RoundTrip.RoundTripExactly` | libdxwifi/receiver.c:231-252 | whatever the dispatches, the round trip succeeds if and only if the last block does not look like a control frame |
| `Reordering.SentOrderExactly` | libdxwifi/receiver.c:308-407 | arrivals that are a permutation of what was sent leave the heap in the order of sending if and only if no window overflows it and the numbers of every window lie below those of all later windows |
| `Reordering.RisingRoundTrip` | dxwifi/tx/tx.c:196-202 | for the frames of a file of any size in any order and any dispatches, under that condition, an ordered directory capture yields the file and nothing else if and only if no preamble stands behind a data frame |
| `Reordering.ReorderedRoundTripExactly` | dxwifi/tx/tx.c:196-202 | without noise, for blocks of one size that are all different: it yields the file if and only if no preamble stands behind a data frame, no window overflows the heap, and the windows rise |
| `Reordering.LateBlockIsMisplaced` | libdxwifi/receiver.c:369-371 | two blocks that arrive in reverse order and in different windows come out in reverse order |
| `Reordering.AnyOrderRoundTrip` | dxwifi/tx/tx.c:196-202 | for a file in full blocks whose data fits the packet buffer at once, any order will do: it yields the file if and only if no preamble stands behind a data frame |
| `Reordering.PreamblesLastFails` | libdxwifi/receiver.c:276-283 | an arrival with the data before the preambles, for which it does not |
| `Separation.OutputsSeparateExactly` | libdxwifi/receiver.c:515-534 | without noise, files that can be told apart frame by frame give one output each, as long as the data that arrived of it, if and only if no dispatch holds data behind the preamble that ends a capture and no window of a file overflows the heap |
| `EndToEnd.FilesArriveSeparately` | dxwifi/rx/rx.c:195-205 | for any list of files and any order-preserving loss that keeps a preamble and a data frame per file: one output per file, if no dispatch holds data behind the preamble that ends a capture; output k is the surviving blocks of file k in order if they do not overflow the heap, and, no block being empty, only then |
| `EndToEnd.FilesArriveExactly` | dxwifi/rx/rx.c:195-205 | for files in nonempty blocks, without noise or with captures that fit the heap: the outputs are the surviving blocks of the files, one by one, if and only if no dispatch holds such data and no window of any file overflows the heap |
| `EndToEnd.BlocksFit` | libdxwifi/receiver.c:26 | when the data of a file fits the heap: long blocks, or few blocks of any sizes |
| `Transfer.UndisturbedFiles` | dxwifi/tx/tx.c:255-285 | undisturbed, every file that opens is sent in full blocks count + 1 times |
| `Transfer.TransmissionsAreReceived` | test/test_tx_rx.py:105-128 | whole transmissions of several files are received as those files |
| `Transfer.TransferFiles` | test/test_tx_rx.py:105-128 | the transmission program into a savefile and the reception program out of it: the outputs are the files |

## Left out

- pcap, poll, read, write, signals and opening of files: they appear as schedules of events and as an output
  that only grows. Writes are complete and every output file is new (`open` is called without `O_TRUNC`).
- Reads that fail: `read` returning -1 is stored in an unsigned field and would be taken for a huge block.
- Handlers that change the size of a payload: the proofs ask handlers to keep payload and size, as both
  handlers that `tx.c` attaches before injection do. The statistics logger behind the injection and the
  handlers' user pointers are not modelled, nor is `remove_handler`.
- TransmitProgram.TransmitFile: with `retransmit_count` -1 the runs that end are modelled; a run that goes on
  forever has no result to speak of.
- Directory and watch mode of `tx.c`, and `dirwatch.c`.
- Receiver.DxwifiReceiver.CaptureInDirectory: a failing `open` of an output, which would end the loop, is not
  modelled; nor are file names and append mode.
- Receiver.FrameController.ProcessFrame: frames have headers that fit their capture length and a capture
  length that fits the packet buffer; shorter or longer ones would be read or written out of bounds.
- Delivery.CaptureSortsItsWindows: the order among equal numbers is that of the heap, not characterised
  further.
- Delivery.UnorderedIsFifo: payloads that are empty, which the transmitter never sends, may be dropped without
  a trace, so the "only then" asks for none.
- EndToEnd.FilesArriveExactly: with noise enabled it asks that no capture overflows the heap, since noise could
  make up in length for what the heap dropped.
- Filling.CaptureFillsExactly: for frame numbers below 2^31 - 1, where the receiver's 32-bit arithmetic does
  not wrap around, and for windows that fit the heap.
- Heap.HeapSort: element counts are below 2^32, because the start index of the build phase is a 32-bit int.
- Bit corruption, checksum verification (a TODO in the code), radiotap fields beyond the length, `crc_valid`,
  pcap statistics, logging, command lines, delays. The capture filter: schedules hold the frames that pass it.
- The bits of the MAC frame control field are taken as two given bytes.
