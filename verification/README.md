# Verified model of the protoDUNE data-acquisition core

The repository is a data-acquisition and slow-control stack in C++. This project models its
algorithmic parts in Dafny and proves what they promise:

* **Recording.** Frames from a link pass a circular queue (`CommQueue`), are interleaved with XML
  records asked for by other threads, get a tagged length word (`DataFormat`) and are written through
  an optional buffer into size-rotated files (`DataFile`, `Recorder`). `FileLog` and `FileRotation`
  speak about every run of the recording file, `Recording` about every interleaving of the threads.
* **Register transactions.** `RegisterProtocol` has the requester, the IO thread, a link that loses and
  delays frames with the device and its memory behind it, and the receive thread; `RegisterRuns` says whose
  answer a call that returns has got, in every run, `RegisterDevice` and `RegisterHazards` whether the device
  has done what it was asked to and for how long that lasts, `RegisterLostWrite` is a run in which it has not;
  `AxisFrame` has the frames on the wire.
* **Shadow registers.** `RegisterBits`, `ShadowRegister` and `RegisterObject` are one register and its
  fields, `RegisterLink` the variables laid out in it, `RegisterCache` the stale flags against the
  hardware, `DeviceRegisters` and `DeviceDriver` the walks that write and verify a device tree, `DeviceWalk`
  where these walks lead and what they leave there.
* **Configuration.** `DeviceTree`, `ConfigRoundTrip` and `DeviceConfig` dump a device tree in two passes
  and load the dump again.
* **Flash programming.** `McsFormat` and `McsReader` read Intel hexadecimal files, `FlashPages` cuts them
  into pages, `FlashChip` is the NOR flash, `FlashLoader` the loader, `FlashImage` what it leaves behind and
  `BootProm` the three passes in a row.
* **Shared memory.** `SharedRing` is the ring of records, `ControlHandshake` the command handshake.
* **Control window.** `PathIndex` is the tree of items that is built while paths are looked up.

Each object that the program updates in place is a class whose methods are proved equal to a function of
its old state; the lemmas are about these functions, over all inputs, runs and interleavings. Concurrent
programs are state machines whose steps are single accesses to what they share, but where "Left out" says so. Where a promise is false of the code
there is a lemma with an input that breaks it and one that says exactly when it holds.

Findings about the code that the proofs bring out:

* A write buffer that is enabled again, or a link closed while no file is open, drops pending bytes; a
  rotation whose open fails leaves a record behind in the buffer (`FileLog.StepStream`).
* A late response ends the next attempt, which has not even been sent, when it is counted between the two
  counters (`RegisterRuns.RacedReturn`), and also when it has merely been matched before they are touched
  (`RegisterRuns.MatchedReturn`). `RegisterRuns.SpoiledExactly` says at which attempts this can happen.
* A waited write can return without its words ever having been sent, on the answer to a read of another
  register, in a run without a failed call, a bad status or anything between the counters
  (`RegisterLostWrite.LostWrite`). Its stale flag is cleared all the same, so it is not repeated
  (`RegisterCache.StrayWriteIsNotRepeated`).
* A write that has timed out stays on the link; when it arrives after a later write of the same address, the
  device has the old words although both calls returned. `RegisterHazards.HazardExactly` says at which
  attempts a call can return without the device having done last what it was asked to, and
  `RegisterHazards.StaysExactly` when what it holds can still change.
* A read answered with an error status fills the register with ones and leaves the stale flag alone, so
  that a later write of ones is skipped (`RegisterCache.RefusedReadSkipsWrite`); a register nobody has
  touched is skipped as well (`DeviceRegisters.UntouchedIsSkipped`).
* A wrong kind byte can turn a data record into the end of the file, and a wrong count byte can cut one short,
  with the checksum right (`McsFormat.UnnoticedExactly`, `McsFormat.DataTakenForEnd`).
* Verifying a file that is not there returns true (`FlashLoader.Loader.VerifyBootProm`), and erasing never
  ends for ranges that reach into the last sector of the 32-bit address space (`AxiMicronN25Q.SweepNeverEnds`).
* The length check of the shared ring lets three sizes through that a row has no room for, one of them
  because it wraps; such an entry takes bytes of the next row and loses its own to the next write
  (`SharedRing.OwnRowExactly`, `SharedRing.OversizedIsSpoiled`).
* A path that starts with a colon is never indexed and takes the index entry of another one: after ":a",
  "a" is answered with the item below an empty label (`PathIndex.LeadingColonTakesPath`).
* A client that gives up and sends another command has it acknowledged unread, depending on where the
  server stands (`ControlHandshake.LostFromStart`, `ControlHandshake.SecondIsRunExactly`); both are run only
  if the server is about to acknowledge the first one by then (`ControlHandshake.BothAreRunExactly`).

## Model

| member | source | states |
|---|---|---|
| DataFormat.DecodeInvertsEncode | software/protoDUNE/generic/Data.h:53-62 | reading a stream by the type nibble and length rule gives back exactly the well-sized records that were written, whatever follows |
| DataFormat.DecodePrefix | software/protoDUNE/generic/Data.h:53-62 | a stream cut off anywhere still yields a prefix of its records |
| DataFormat.RoundTripExact | software/protoDUNE/generic/CommLink.cpp:130-187 | one record survives exactly when its size is below 2^28, for raw data and for XML |
| CommQueue.CommQueue.constructor | software/protoDUNE/generic/CommQueue.cpp:31-42 | an empty queue |
| CommQueue.CommQueue.Push | software/protoDUNE/generic/CommQueue.cpp:50-80 | refused exactly when size-1 elements are queued, otherwise appended to the FIFO |
| CommQueue.CommQueue.Pop | software/protoDUNE/generic/CommQueue.cpp:83-111 | takes the oldest element, nothing exactly when the FIFO is empty |
| CommQueue.CommQueue.Ready | software/protoDUNE/generic/CommQueue.cpp:115-121 | true exactly when the FIFO is not empty |
| CommQueue.CommQueue.EntryCnt | software/protoDUNE/generic/CommQueue.cpp:125-131 | the counter is the length of the FIFO |
| Recorder.Recorder.BuffWrite | software/protoDUNE/generic/CommLink.cpp:1081-1102 | buffering, flushing and the count returned, as a function of the old state |
| Recorder.Recorder.CheckFileSize | software/protoDUNE/generic/CommLink.cpp:364-397 | flush, count up and open the next file when the size is over the limit |
| Recorder.Recorder.Record | software/protoDUNE/generic/CommLink.cpp:147-154 | one tag and payload under the file mutex |
| Recorder.Recorder.OpenDataFile | software/protoDUNE/generic/CommLink.cpp:400-437 | a new session and reset counters |
| Recorder.Recorder.CloseDataFile | software/protoDUNE/generic/CommLink.cpp:440-454 | flush, then no file |
| Recorder.Recorder.EnableWriteBuffer | software/protoDUNE/generic/CommLink.cpp:1061-1078 | a new empty buffer, or none when the allocation fails |
| FileLog.StepStream | software/protoDUNE/generic/CommLink.cpp:1061-1102 | after any operation all files plus the buffer hold the old bytes and the encoded accepted record, if and only if the guard of that operation holds |
| FileLog.FailedRotation | software/protoDUNE/generic/CommLink.cpp:364-397 | when the next file cannot be opened the record vanishes without a trace only if it is unbuffered or empty |
| FileLog.FailedRotationCounts | software/protoDUNE/generic/CommLink.cpp:1081-1102 | the two failed writes of such a record leave the size counter at 2^32 - 2 |
| FileLog.BufferDelays | software/protoDUNE/generic/CommLink.cpp:1081-1102 | with a buffer the file is touched only when bytes do not fit, and gets those that waited |
| FileLog.UnbufferedIsWritten | software/protoDUNE/generic/CommLink.cpp:440-454 | without one, and after a flush or a close, every byte is in the file, and after a close none is open |
| FileLog.BufferAsAsked | software/protoDUNE/generic/CommLink.cpp:1061-1078 | the buffer has the size asked for, or is off |
| FileLog.RunStream | software/protoDUNE/generic/CommLink.cpp:122-210 | over every run files plus buffer are the accepted records, complete and in order |
| FileLog.RunDecodes | software/protoDUNE/generic/CommLink.cpp:122-210 | from a fresh link the stream decodes to the accepted records and the files alone to a prefix of them |
| FileLog.OrdinaryKeepsStream | software/protoDUNE/generic/CommLink.cpp:400-454 | opens that succeed and buffers enabled only when nothing is pending imply all guards, on every run |
| FileLog.EnablingAgainLosesRecords | software/protoDUNE/generic/CommLink.cpp:1061-1078 | a run in which enabling the buffer a second time loses a record |
| FileRotation.StepFiles | software/protoDUNE/generic/CommLink.cpp:364-397 | each single file stays equal to its own records (the open one together with the buffer) if and only if the guard holds |
| FileRotation.RunFiles | software/protoDUNE/generic/CommLink.cpp:147-187 | no header or payload is split between files in any run, also with bytes pending |
| FileRotation.LeftFileDecodes | software/protoDUNE/generic/CommLink.cpp:364-454 | every file that has been left decodes on its own to exactly its records |
| FileRotation.NamedFileDecodes | software/protoDUNE/generic/CommLink.cpp:400-437 | however often a name was opened, the bytes under it (with those still in the buffer for it) decode to the records of all its sessions, in order |
| FileRotation.StepSizes | software/protoDUNE/generic/CommLink.cpp:364-397 | the size counter stays the true size exactly while it does not pass 2^32 |
| FileRotation.RotatedOut | software/protoDUNE/generic/CommLink.cpp:364-397 | a file closed by rotation is over the limit, without its last record it is not, and the new file holds just the new record |
| FileRotation.RotationInRuns | software/protoDUNE/generic/CommLink.cpp:179-187 | the same in every run from a fresh link |
| FileRotation.OpenedAsAsked | software/protoDUNE/generic/CommLink.cpp:400-437 | after an open that succeeds the file is empty, has the name asked for, part 1 if there is a limit and 0 if not, and the limit asked for |
| FileRotation.RotationUsesLimit | software/protoDUNE/generic/CommLink.cpp:364-437 | from an open to the next one, in every guarded run: the next record moves on if and only if file and buffer are over the limit asked for, to the next number under the same name, alone there |
| FileRotation.FilesOnlyGrow | software/protoDUNE/generic/CommLink.cpp:400-437 | bytes once written are never changed, left files never grow |
| Recording.NothingLost | software/protoDUNE/generic/CommLink.cpp:122-210 | in every interleaving the files and the buffer decode to exactly the frames handled while a file was open and the texts of the calls looked at while XML was stored and dealt with while a file was open, in this order, as a bystander notes them from the actions; frames are neither lost, doubled nor reordered on their way |
| Recording.FramesStep | software/protoDUNE/generic/MultLink.cpp:171-185 | every step keeps: handled, in hand, queued and waiting frames, in this order, are those received |
| Recording.StreamStep | software/protoDUNE/generic/CommLink.cpp:127-159 | every guarded step adds to the stream what is due by these notes, with the caller's own text although header and payload are computed at different moments |
| Recording.CallStep | software/protoDUNE/generic/CommLink.cpp:789-921 | every step keeps the request/response counters and the shared entry in agreement with the call under way |
| Recording.CallsHandledOnce | software/protoDUNE/generic/CommLink.cpp:789-921 | each call is looked at exactly once, in call order, and nothing of it is owed when it returns |
| Recording.FrameWithinSeven | software/protoDUNE/generic/CommLink.cpp:164-210 | a frame that is queued: within any seven steps of the data thread one is handed on |
| Recording.AnswerWithinSeven | software/protoDUNE/generic/CommLink.cpp:122-160 | a call that waits: within any seven steps of the data thread it can return |
| AxisFrame.WriteFrameReadsBack | software/protoDUNE/generic/MultDestAxis.cpp:101-127 | a write frame reads back as the same context, type, aligned address, words and status 0, exactly for up to 512 words |
| AxisFrame.ReadResponseReadsBack | software/protoDUNE/generic/MultDestAxis.cpp:201-244 | a read response reads back as its context, aligned address, words and status |
| AxisFrame.FramesInjective | software/protoDUNE/generic/MultDestAxis.cpp:101-127 | two aligned requests have the same frame exactly when they are the same request; reads and writes never collide |
| AxisFrame.RequestIsUnderstood | software/protoDUNE/generic/MultDestAxis.cpp:101-127 | read by bit 30 and the 30 bits below it, a request is a write of all its words or a read of the register's size, at the aligned address |
| AxisFrame.TakenExactly | software/protoDUNE/generic/MultDestAxis.cpp:182-248 | a frame is taken if and only if it has 3 to 515 words and is unbroken; context, words and status are then all there is to it |
| AxisFrame.OnlyAlignedMatch | software/protoDUNE/generic/MultLink.cpp:193-193 | a response can match the address asked for only if that is word-aligned |
| AxisFrame.MultDestAxis.Transmit | software/protoDUNE/generic/MultDestAxis.cpp:88-127 | the buffer filled word by word is the request frame |
| AxisFrame.MultDestAxis.Receive | software/protoDUNE/generic/MultDestAxis.cpp:182-248 | what is taken from a frame, what is refused, and which words keep old content |
| RegisterProtocol.SentOnceStep | software/protoDUNE/generic/MultLink.cpp:73-90 | every step keeps: contexts go out in increasing order, none twice and none before it is issued |
| RegisterProtocol.OneFrameStep | software/protoDUNE/generic/MultLink.cpp:188-219 | at most one frame per context is under way or in hand, none on the link once it is answered, for any loss or delay |
| RegisterProtocol.AttemptsStep | software/protoDUNE/generic/CommLink.cpp:526-583 | every step keeps the accounting of attempts and counters |
| RegisterProtocol.HonestStep | software/protoDUNE/generic/MultLink.cpp:188-206 | compare, copy, status and count being separate steps, every step keeps: an attempt issued over no loose end is either answered by its own response, or cannot end with status 0 |
| RegisterRuns.ReturnIsGenuine | software/protoDUNE/generic/CommLink.cpp:516-599 | in every run a waited call that returns has been answered with the context of its own last attempt, which was sent, its own address and status 0, and a read holds that response's words, unless that attempt was issued over a loose end |
| RegisterRuns.SpoiledExactly | software/protoDUNE/generic/CommLink.cpp:534-583 | at the moment the request counter advances: the attempt can end in a return that is no answer to it if and only if a response not its own is counted or still in hand and leaves status 0 |
| RegisterRuns.LooseReturns | software/protoDUNE/generic/CommLink.cpp:534-583 | over a loose end the call can return without the attempt having been sent at all |
| RegisterRuns.UndividedReturnIsGenuine | software/protoDUNE/generic/CommLink.cpp:534-546 | a return is always an answer when the two counters are handled without a break and no response is in hand then |
| RegisterRuns.ContextsSentOnce | software/protoDUNE/generic/MultLink.cpp:73-90 | every context is transmitted at most once, in increasing order, and a call uses at most six |
| RegisterRuns.BeginsUntried | software/protoDUNE/generic/CommLink.cpp:518-532 | a call begins with no attempt made, or throws at once when the register is too long |
| RegisterRuns.GivenUpExactly | software/protoDUNE/generic/CommLink.cpp:549-583 | an attempt that times out or has a bad status is the last one if and only if it is the sixth |
| RegisterRuns.ThrowsAfterSix | software/protoDUNE/generic/CommLink.cpp:534-591 | in every run each attempt of a call advances the counter once, there are at most six, and it throws only after the sixth |
| RegisterRuns.AnswerIsTaken | software/protoDUNE/generic/MultLink.cpp:188-208 | a fitting response to the latest attempt, whatever its status, brings words or ones and its status to the register and is counted |
| RegisterRuns.OthersAreDropped | software/protoDUNE/generic/MultLink.cpp:188-219 | any other response leaves registers and counters alone |
| RegisterRuns.RacedReturn | software/protoDUNE/generic/CommLink.cpp:534-546 | a run in which a response counted between the counters ends an attempt that was never sent |
| RegisterRuns.MatchedReturn | software/protoDUNE/generic/MultLink.cpp:193-206 | a run in which a response matched before the timeout does so, with nothing between the counters |
| RegisterDevice.DeviceInvStep | software/protoDUNE/generic/MultLink.cpp:73-90 | every step of requester, IO thread, link, device and receive thread keeps: an attempt issued without a hazard will never be answered, or its one frame is right, nothing else writes to its address, and any good answer to it means the device has carried it out last |
| RegisterDevice.ReturnIsDone | software/protoDUNE/generic/CommLink.cpp:516-599 | in every run a waited call that returns has been carried out by the device as its last word at that address, a write's words stand there, a read's words are those there, and no older write is on its way, unless its last attempt was issued at a hazard |
| RegisterHazards.HazardExactly | software/protoDUNE/generic/CommLink.cpp:534-583 | at the moment the request counter advances: the attempt can end in a return without that if and only if there is a loose end, or its frame can reach the address while an older write to it is on the link, the IO thread has taken up the other direction or another register's words, or the receive thread is about to fill the register with ones |
| RegisterHazards.HazardReturns | software/protoDUNE/generic/CommLink.cpp:534-594 | at each hazard a continuation in which the call returns and the device has not carried it out as its last word |
| RegisterHazards.StaysExactly | software/protoDUNE/generic/MultLink.cpp:73-90 | while no write to an address is sent, what the device holds there can change if and only if a write with other words is on the link |
| RegisterHazards.WrittenStays | software/protoDUNE/generic/CommLink.cpp:516-599 | the words of a waited write that returned without a hazard stand in the device in every continuation until the next write to the address is sent |
| RegisterLostWrite.LostWrite | software/protoDUNE/generic/CommLink.cpp:534-594 | a run from the beginning, all statuses 0 and the counters handled without a break, in which a waited write returns and its words were never sent |
| RegisterBits.FieldReadsBack | software/protoDUNE/generic/Register.cpp:117-135 | a field reads back as value & mask & (0xFFFFFFFF >> bit) |
| RegisterBits.SetFieldAt | software/protoDUNE/generic/Register.cpp:117-130 | bit by bit: the value inside the field, the old word outside |
| RegisterBits.GetFieldAt | software/protoDUNE/generic/Register.cpp:132-135 | bit by bit: what is read through a field |
| RegisterBits.FieldBeside | software/protoDUNE/generic/Register.cpp:117-135 | writing a field leaves every disjoint field as it reads |
| RegisterBits.FieldsCommute | software/protoDUNE/generic/Register.cpp:117-130 | writes to disjoint fields commute |
| RegisterBits.SameField | software/protoDUNE/generic/Device.cpp:124-128 | two words read the same through a field exactly when they agree under its shifted mask |
| ShadowRegister.SetIndex | software/protoDUNE/generic/Register.cpp:117-130 | words change only together with the stale flag, and a field write that changes nothing changes the flag neither |
| ShadowRegister.IndexReadsBack | software/protoDUNE/generic/Register.cpp:117-135 | a field of one word reads back; other words and disjoint fields are untouched |
| RegisterObject.Register.SetIndex | software/protoDUNE/generic/Register.cpp:117-130 | the object's words and flag after a field write |
| RegisterObject.Register.GetIndex | software/protoDUNE/generic/Register.cpp:132-135 | the field, or all ones past the end |
| RegisterObject.Register.SetData | software/protoDUNE/generic/Register.cpp:81-84 | all words are replaced and the register is stale if any differs or it was |
| RegisterLink.VariablesToRegister | software/protoDUNE/generic/RegisterLink.cpp:152-174 | the variables are put into their fields, all in one word or one word each |
| RegisterLink.RegisterToVariables | software/protoDUNE/generic/RegisterLink.cpp:177-192 | the values read from the fields |
| RegisterLink.VariablesReadBack | software/protoDUNE/generic/RegisterLink.cpp:152-192 | with disjoint fields every variable reads back as what fits of its value, whatever the register held |
| RegisterLink.AppliedInside | software/protoDUNE/generic/RegisterLink.cpp:152-174 | bit by bit: inside its field the register gets the variable |
| RegisterLink.AppliedOutside | software/protoDUNE/generic/RegisterLink.cpp:152-174 | bits that belong to no variable stay |
| RegisterLink.TakenAt | software/protoDUNE/generic/RegisterLink.cpp:177-192 | bit by bit: what a variable is given by the register |
| RegisterLink.AgreesExactly | software/protoDUNE/generic/RegisterLink.cpp:90-108 | comparison under the verify mask passes exactly when all configuration variables read the same; status bits do not matter |
| RegisterCache.StepCoherent | software/protoDUNE/generic/Device.cpp:55-109 | transacted registers that are not stale equal the hardware after a step if and only if the guard holds: no refused read or late write of such a register, and no return on a response not its own, unless it makes no difference |
| RegisterCache.CoherentFromStart | software/protoDUNE/generic/Register.cpp:81-130 | the same over every guarded run of field sets, bulk sets, reads, writes (also failing or stray ones), late writes and `setAllStale`, from any hardware |
| RegisterCache.ReadBrings | software/protoDUNE/generic/Device.cpp:85-109 | after a read that goes well the register has the words of the hardware and is not stale; a refused one leaves ones, a lost one nothing, and all else stays |
| RegisterCache.WriteTells | software/protoDUNE/generic/Device.cpp:55-82 | when the hardware gets the words of a register that is stale or forced, and that it is stale afterwards exactly after a failure |
| RegisterCache.WriteSkips | software/protoDUNE/generic/Device.cpp:55-64 | when nothing is sent, and that a force is remembered |
| RegisterCache.AllStaleMarks | software/protoDUNE/generic/Device.cpp:1255-1277 | exactly the named registers become stale, nothing else changes |
| RegisterCache.StrayWriteIsNotRepeated | software/protoDUNE/generic/CommLink.cpp:594-594 | a write that returns on a response not its own clears the flag, the hardware stays without its words, and the next write skips it |
| RegisterCache.RefusedReadSkipsWrite | software/protoDUNE/generic/MultLink.cpp:196-204 | how a refused read makes a later write be skipped |
| DeviceRegisters.SkippingOne | software/protoDUNE/generic/Device.cpp:55-64 | skipping and forcing one register leave the same hardware exactly when it is stale or the hardware has its words |
| DeviceRegisters.SkippingExactly | software/protoDUNE/generic/Device.cpp:1132-1167 | for a list of different registers skipping and forcing leave the same hardware if and only if each of them is stale or there already |
| DeviceRegisters.SkippingIsSafe | software/protoDUNE/generic/Device.cpp:1132-1167 | `writeConfig(false)` leaves registers, flags and hardware exactly as `writeConfig(true)` for registers that are stale or have been transacted |
| DeviceRegisters.SkippingIsSafeInRuns | software/protoDUNE/generic/Device.cpp:1132-1167 | the same after every run from power-up that keeps to the guard, stray returns and late writes included, for a whole device tree |
| DeviceRegisters.UntouchedIsSkipped | software/protoDUNE/generic/Register.cpp:45-54 | a register nobody has touched is skipped whatever the hardware holds |
| DeviceRegisters.HardwareHoldsVariables | software/protoDUNE/generic/Device.cpp:1132-1167 | after a forced write every variable stands in the hardware, as far as it fits its field |
| DeviceRegisters.VerifyAfterWrite | software/protoDUNE/generic/Device.cpp:1170-1197 | verification right after a forced write passes exactly when the configuration variables of one-word registers and all words of larger ones are undisturbed |
| DeviceRegisters.VerifiesExactly | software/protoDUNE/generic/Device.cpp:112-178 | a register passes if and only if its read returns and the compared bits of what that brought are undisturbed |
| DeviceRegisters.ReadGivesVariables | software/protoDUNE/generic/Device.cpp:1104-1109 | bit by bit: a read that goes well gives every variable what stands in its field in the hardware |
| DeviceRegisters.WrittenIsReadBack | software/protoDUNE/generic/Device.cpp:1104-1150 | whatever the register is set to in between, a forced write is read back by every variable as far as its field reaches |
| DeviceWalk.WalkPlaces | software/protoDUNE/generic/Device.cpp:1132-1167 | the registers a walk comes to are those of all places with a configuration variable at the end of enabled devices, each once, a device's own before those of its sub-devices, these in order |
| DeviceWalk.WalkExactly | software/protoDUNE/generic/Device.cpp:1132-1197 | a link is written and verified if and only if it is the link of such a place |
| DeviceWalk.TreeHoldsVariables | software/protoDUNE/generic/Device.cpp:1132-1167 | after a forced write of a tree every variable of such a place stands in the hardware, bit by bit |
| DeviceWalk.TreeVerifies | software/protoDUNE/generic/Device.cpp:1170-1197 | verifying the tree then passes if and only if all such places that are to be verified are undisturbed |
| DeviceDriver.Driver.WriteRegister | software/protoDUNE/generic/Device.cpp:55-82 | what a write does to register, flag and hardware, when it is skipped or throws, and when it returns without having been sent |
| DeviceDriver.Driver.ReadRegister | software/protoDUNE/generic/Device.cpp:85-109 | what a read does to the register, also when it fails or returns on another response |
| DeviceDriver.Driver.ReadLink | software/protoDUNE/generic/Device.cpp:1104-1109 | the register is read and the variables set from it, or none when the read fails |
| DeviceDriver.Driver.VerifyRegister | software/protoDUNE/generic/Device.cpp:112-178 | throws exactly when the read fails or the compared bits of what it brought differ, and changes nothing |
| DeviceDriver.Driver.WriteConfig | software/protoDUNE/generic/Device.cpp:1132-1167 | the walk over the tree writes exactly the configuration registers of enabled devices, in order, up to the first exception |
| DeviceDriver.Driver.VerifyConfig | software/protoDUNE/generic/Device.cpp:1170-1197 | throws exactly when one of them that is to be verified fails |
| DeviceDriver.Driver.SetAllStale | software/protoDUNE/generic/Device.cpp:1255-1277 | exactly the given registers become stale |
| DeviceConfig.GetXmlConfig | software/protoDUNE/generic/Device.cpp:251-328 | the loops print the elements of the common or the per-instance pass |
| DeviceConfig.GetGroupConfig | software/protoDUNE/generic/Device.cpp:277-318 | in the common pass the first enabled instance speaks for its type, or the first one if none is enabled |
| DeviceConfig.ConfigString | software/protoDUNE/generic/System.cpp:861-871 | common pass, then all instances |
| DeviceConfig.SetXmlConfig | software/protoDUNE/generic/Device.cpp:181-248 | the loops load element after element, un-indexed ones into every instance |
| ConfigRoundTrip.LoadValue | software/protoDUNE/generic/Device.cpp:181-248 | loading gives a variable the last value addressed to it and leaves every other variable alone |
| ConfigRoundTrip.CommonDump | software/protoDUNE/generic/Device.cpp:251-328 | what the common pass addresses to a variable is the value of its type's representative |
| ConfigRoundTrip.InstanceDump | software/protoDUNE/generic/Device.cpp:251-328 | what the second pass addresses to a variable is its own value, if it is per-instance |
| ConfigRoundTrip.LoadedValue | software/protoDUNE/generic/System.cpp:861-871 | the value of any variable after loading a dump into any tree of the same shape |
| ConfigRoundTrip.RestoresExactly | software/protoDUNE/generic/System.cpp:861-871 | a dump restores every variable that is no status, not kept out of it and not hidden from it, in every tree of the same shape, if and only if the representatives agree with the instances on what is not per-instance |
| ConfigRoundTrip.HomogeneousAgrees | software/protoDUNE/generic/Device.cpp:277-318 | they agree when instances of a type are alike and equal in what is not per-instance |
| ConfigRoundTrip.HomogeneousIsWellKeyed | software/protoDUNE/generic/Device.cpp:181-248 | in such trees no variable can be taken for a device type on the way to a representative |
| ConfigRoundTrip.AddressedBelongs | software/protoDUNE/generic/Device.cpp:251-328 | what a dump addresses to a variable is the value of one of the same type that is no status, not kept out, and hidden only where that is asked for |
| ConfigRoundTrip.NothingElseAddressed | software/protoDUNE/generic/Device.cpp:251-328 | in homogeneous trees nothing is addressed to a status variable or one that is kept out |
| ConfigRoundTrip.DumpElements | software/protoDUNE/generic/Device.cpp:251-328 | every element of a dump is that of such a variable, or the tag of a device with something inside |
| DeviceTree.Representative | software/protoDUNE/generic/Device.cpp:277-318 | the first enabled instance, or the first one if none is enabled |
| DeviceTree.EnabledExactly | software/protoDUNE/generic/Device.cpp:277-318 | enabled means that the variable of that name says so |
| McsFormat.RenderedIsRead | software/protoDUNE/deviceLib/McsRead.cpp:162-384 | every well-formed record, written as a line in either case, is read back as itself |
| McsFormat.CorruptionIsNoticed | software/protoDUNE/deviceLib/McsRead.cpp:235-290 | any one wrong address, data or checksum byte of a data record is reported |
| McsFormat.UnnoticedExactly | software/protoDUNE/deviceLib/McsRead.cpp:204-320 | a data record with any one wrong byte is read as good if and only if that is the kind byte, 1, over data that sum up to 1 modulo 256, or a smaller count byte whose checksum byte happens to fit; and what it is read as |
| McsFormat.DataTakenForEnd | software/protoDUNE/deviceLib/McsRead.cpp:301-320 | a record of one data byte that is read as the end of the file |
| McsFormat.OnlyRenderedIsRead | software/protoDUNE/deviceLib/McsRead.cpp:204-384 | a line that is read as data or an address is the rendering of it, checksum included |
| McsFormat.EndIsReadExactly | software/protoDUNE/deviceLib/McsRead.cpp:301-320 | when a line is read as the end of the file |
| McsReader.RenderedFileIsRead | software/protoDUNE/deviceLib/McsRead.cpp:114-159 | repeated reading delivers exactly the flattened bytes at base + offset + i mod 2^32, then the end of the file, with a line end behind the last line or without |
| McsReader.CutFileIsRead | software/protoDUNE/deviceLib/McsRead.cpp:170-187 | a file cut between two lines delivers the bytes that are left, then raises an exception, or is an error when the last line end is gone as well |
| McsReader.ItemsAre | software/protoDUNE/deviceLib/McsRead.cpp:288-297 | the bytes of a record stand at consecutive addresses modulo 2^32 |
| McsReader.McsRead.Next | software/protoDUNE/deviceLib/McsRead.cpp:162-384 | one line: what it leaves in the buffers and what it returns, checks in the order they are made |
| McsReader.McsRead.Read | software/protoDUNE/deviceLib/McsRead.cpp:114-159 | the next byte, taking lines until one has data |
| FlashLoader.Loader.WaitForFlashReady | software/protoDUNE/deviceLib/AxiMicronN25Q.cpp:833-844 | polling ends, whatever the busy time, with the chip ready |
| FlashLoader.Loader.SetCmd | software/protoDUNE/deviceLib/AxiMicronN25Q.cpp:809-884 | a command with the write mask reaches the chip ready and enabled |
| FlashLoader.Loader.EraseCommand | software/protoDUNE/deviceLib/AxiMicronN25Q.cpp:295-304 | the sector is erased and the chip got no command at a wrong moment |
| FlashLoader.Loader.WriteCommand | software/protoDUNE/deviceLib/AxiMicronN25Q.cpp:493-502 | the page is programmed and the chip got no command at a wrong moment |
| FlashLoader.Loader.ReadCommand | software/protoDUNE/deviceLib/AxiMicronN25Q.cpp:705-718 | the read reaches the chip ready |
| FlashLoader.Loader.EraseBootProm | software/protoDUNE/deviceLib/AxiMicronN25Q.cpp:263-292 | the sectors of the sweep are erased in order |
| FlashLoader.Loader.WriteBootProm | software/protoDUNE/deviceLib/AxiMicronN25Q.cpp:307-405 | for every file and size the pages given to the chip are the file's pages, the last padded with ones, or the full ones before an error; none for a file that is not found |
| FlashLoader.Loader.BufferedWriteBootProm | software/protoDUNE/deviceLib/AxiMicronN25Q.cpp:408-490 | the byte-buffer writer returns the same and sends the same pages, or none without lane and channel |
| FlashLoader.Loader.BufferedWriteCommand | software/protoDUNE/deviceLib/AxiMicronN25Q.cpp:504-533 | a page is sent only once lane and channel are set |
| FlashLoader.Loader.VerifyBootProm | software/protoDUNE/deviceLib/AxiMicronN25Q.cpp:536-615 | true exactly when the file is not found or the bytes looked at are in the chip, and otherwise how the pass ends; the chip is left as it is |
| FlashLoader.Loader.GetData | software/protoDUNE/deviceLib/AxiMicronN25Q.cpp:847-884 | the 64 words read spell the 256 bytes of the page |
| AxiMicronN25Q.DataBytesAre | software/protoDUNE/deviceLib/AxiMicronN25Q.cpp:355-372 | words packed big end first stand for the bytes they were packed from |
| AxiMicronN25Q.SweepNeverEnds | software/protoDUNE/deviceLib/AxiMicronN25Q.cpp:271-289 | a sweep that would pass the end of the 32-bit addresses never reaches its limit |
| AxiMicronN25Q.SweepAt | software/protoDUNE/deviceLib/AxiMicronN25Q.cpp:263-292 | whatever its start, a sweep sets exactly the sectors of its addresses to ones |
| AxiMicronN25Q.ProgrammingResult | software/protoDUNE/deviceLib/AxiMicronN25Q.cpp:307-405 | when writing returns true or false or raises an exception, and the pages it has given out by then |
| AxiMicronN25Q.VerifiedResult | software/protoDUNE/deviceLib/AxiMicronN25Q.cpp:536-615 | when verifying returns true or false or raises an exception |
| AxiMicronN25Q.Targets | software/protoDUNE/deviceLib/AxiMicronN25Q.cpp:855-861 | three-byte addresses start again after 16 megabytes |
| FlashChip.ProgramClears | software/protoDUNE/deviceLib/AxiMicronN25Q.cpp:493-502 | programming clears bits of one page, bit by bit, and sets none |
| FlashChip.WrongMoments | software/protoDUNE/deviceLib/AxiMicronN25Q.cpp:833-877 | what each command does to the chip, and when it comes at a wrong moment |
| FlashPages.FullPagesAre | software/protoDUNE/deviceLib/AxiMicronN25Q.cpp:338-400 | the whole pages of a file, byte by byte |
| FlashImage.SweepErases | software/protoDUNE/deviceLib/AxiMicronN25Q.cpp:263-292 | an aligned sweep sets everything up to the end of its last sector to ones and touches nothing else |
| FlashImage.PagesSpell | software/protoDUNE/deviceLib/AxiMicronN25Q.cpp:338-400 | the pages of a contiguous file are the consecutive pieces of its bytes padded with ones |
| FlashImage.ProgramAllOverlay | software/protoDUNE/deviceLib/AxiMicronN25Q.cpp:493-502 | programming the pages of an image over ones puts exactly the image there |
| FlashImage.ImageWritten | software/protoDUNE/deviceLib/AxiMicronN25Q.cpp:263-405 | erase and write leave the bytes of the file, ones up to the end of the erased sectors and everything else as it was; every page lies inside the erased range |
| FlashImage.LoadedImageVerifies | software/protoDUNE/deviceLib/AxiMicronN25Q.cpp:536-615 | verification after erase and write returns true exactly for sizes other than 0, over whatever the chip held |
| BootProm.LoadBootProm | software/protoDUNE/deviceLib/AxiMicronN25Q.cpp:263-615 | erase, write and verify on one loader with the same file: both results are true unless the size is 0, the chip got no command at a wrong moment, and its memory is the file with ones up to the end of the erased sectors |
| BootProm.Loaded | software/protoDUNE/deviceLib/AxiMicronN25Q.cpp:263-615 | the three passes as functions of what the chip held before |
| SharedRing.ReadPlace | software/protoDUNE/generic/DataSharedMem.h:129-151 | a reader call looks at one of the newest nine entries, in the slot of its number, never at the row being written |
| SharedRing.InvStep | software/protoDUNE/generic/DataSharedMem.h:110-126 | every single store of the writer and every call of the reader keep the bytes of the rows, addresses and counters in agreement, for entries there is room for |
| SharedRing.GivenInOrder | software/protoDUNE/generic/DataSharedMem.h:110-151 | a reader starting at nothing is only given complete entries, with strictly increasing numbers, in every interleaving |
| SharedRing.NextIsGiven | software/protoDUNE/generic/DataSharedMem.h:129-151 | a reader fewer than ten entries behind is given the very next one if there is one; any other the newest, or nothing while it is being written |
| SharedRing.EntriesAreWritten | software/protoDUNE/generic/DataSharedMem.h:110-126 | what is counted are the entries of the calls, in order |
| SharedRing.WroteThere | software/protoDUNE/generic/DataSharedMem.h:110-126 | after a call all of the entry stands in its row and nothing else has changed |
| SharedRing.WrittenIsRead | software/protoDUNE/generic/DataSharedMem.h:110-151 | a reader that is up to date reads flag and data of what has just been written |
| SharedRing.EntrySurvives | software/protoDUNE/generic/DataSharedMem.h:129-151 | the returned row keeps its entry through eleven further writes |
| SharedRing.TwelfthWriteOverwrites | software/protoDUNE/generic/DataSharedMem.h:110-126 | the twelfth write may take the row |
| SharedRing.WriteAddsUp | software/protoDUNE/generic/DataSharedMem.h:110-126 | the writer's single assignments amount to one whole call |
| SharedRing.OwnRowExactly | software/protoDUNE/generic/DataSharedMem.h:111-117 | a call with `count` bytes changes nothing outside its own row, whatever it writes, if and only if `count` is not one of three sizes |
| SharedRing.OversizedSpills | software/protoDUNE/generic/DataSharedMem.h:111-117 | for those three the byte behind the row is taken, also behind the last row |
| SharedRing.OversizedIsSpoiled | software/protoDUNE/generic/CommLink.cpp:143-146 | an entry of one byte too many is accepted, and the next write takes its last byte |
| SharedRing.HeldIsRead | software/protoDUNE/generic/DataSharedMem.h:140-145 | flag and data read from a row are those of the entry in it |
| SharedRing.DataSharedMemory.Write | software/protoDUNE/generic/DataSharedMem.h:110-126 | memory, addresses and counters after a call, for every length, with the check in 32-bit arithmetic |
| SharedRing.DataSharedMemory.Read | software/protoDUNE/generic/DataSharedMem.h:129-151 | the row found, the flag in it and the reader's new place |
| SharedRing.DataSharedMemory.constructor | software/protoDUNE/generic/DataSharedMem.h:102-107 | the empty ring |
| ControlHandshake.ControlCmdMemory.SetCommand | software/protoDUNE/generic/ControlCmdMem.h:148-162 | the command as meant is in the memory, arguments left out keep their value, and the counter is raised |
| ControlHandshake.ControlCmdMemory.GetCommand | software/protoDUNE/generic/ControlCmdMem.h:165-176 | nothing exactly while the counters are equal |
| ControlHandshake.ControlCmdMemory.SetResult | software/protoDUNE/generic/ControlCmdMem.h:179-184 | the result, cut to its buffer |
| ControlHandshake.ControlCmdMemory.AckCommand | software/protoDUNE/generic/ControlCmdMem.h:187-189 | the counters are equal |
| ControlHandshake.ControlCmdMemory.GetResult | software/protoDUNE/generic/ControlCmdMem.h:192-201 | the result, once the counters are equal |
| ControlHandshake.Serve | software/protoDUNE/generic/ControlServer.cpp:300-375 | one pass of the server: get, execute, set result, acknowledge |
| ControlHandshake.StoresAddUp | software/protoDUNE/generic/ControlCmdMem.h:148-162 | the client's single stores amount to one `SetCommand` |
| ControlHandshake.PhaseStep | software/protoDUNE/generic/ControlCmdMem.h:148-201 | every single assignment of client and server keeps their phases, counters and buffers in agreement |
| ControlHandshake.ExactlyOnce | software/protoDUNE/generic/ControlServer.cpp:300-375 | every command of a client that waits is executed once, in order, and the result read is the one set for it, for any number of commands |
| ControlHandshake.RequestsArrive | software/protoDUNE/generic/ControlCmdMem.h:148-201 | read from the actions: the i-th command executed has the kind of the i-th request and the strings given with it or last before it, whole when they fit, and the i-th answer is the i-th result |
| ControlHandshake.RoundWorks | software/protoDUNE/generic/ControlServer.cpp:300-375 | one round from an idle client to its answer, with the error buffer cleared |
| ControlHandshake.GivingUpLosesTheNext | software/protoDUNE/generic/ControlCmdMem.h:187-189 | a client that does not wait can have its next command acknowledged without being run |
| ControlHandshake.LostFromStart | software/protoDUNE/generic/ControlServer.cpp:300-375 | a run from the beginning in which two commands are sent and one is run |
| ControlHandshake.SecondIsRunExactly | software/protoDUNE/generic/ControlServer.cpp:300-375 | a second command raised over an unacknowledged one is run as it is if and only if the server has not got the first one, or has already read the counter, or has got one of the same type and not run it |
| ControlHandshake.BothAreRunExactly | software/protoDUNE/generic/ControlServer.cpp:300-375 | a client gives up on a command in flight and raises another: both are run if and only if the server is about to acknowledge by then, and both as they were sent if and only if it also ran the first before its arguments were overwritten |
| PathIndex.GenericWindow.MakePath | software/protoDUNE/cntrlGui/GenericWindow.cpp:58-83 | a new item for every component, indexed under the path so far |
| PathIndex.GenericWindow.FindPath | software/protoDUNE/cntrlGui/GenericWindow.cpp:86-138 | the cache, the index, and the backward search, which ends |
| PathIndex.Search | software/protoDUNE/cntrlGui/GenericWindow.cpp:110-132 | it stops at the longest known prefix that ends in front of a colon |
| PathIndex.PrefixClosed | software/protoDUNE/cntrlGui/GenericWindow.cpp:58-83 | a key without its last components is a key |
| PathIndex.FindPathKeeps | software/protoDUNE/cntrlGui/GenericWindow.cpp:86-138 | the item answered is the one indexed under the path; keys, items and cache stay in agreement and only missing prefixes are added |
| PathIndex.FindPathExactly | software/protoDUNE/cntrlGui/GenericWindow.cpp:86-138 | a look-up keeps keys, items and cache in agreement if and only if the path does not start with a colon |
| PathIndex.LeadingColonTakesPath | software/protoDUNE/cntrlGui/GenericWindow.cpp:67-79 | after ":a" the path "a" is answered with the item below an empty label |
| PathIndex.FoundAgain | software/protoDUNE/cntrlGui/GenericWindow.cpp:86-138 | a path is indexed after it was looked up if and only if it does not start with a colon |
| PathIndex.FindCaches | software/protoDUNE/cntrlGui/GenericWindow.cpp:86-105 | the path asked for last is answered from the cache |
| PathIndex.TreeIsIndexed | software/protoDUNE/cntrlGui/GenericWindow.cpp:58-138 | after every run one item for every key, spelled by its labels, one key for every item, and keys closed under prefixes |
| PathIndex.SameItemAgain | software/protoDUNE/cntrlGui/GenericWindow.cpp:86-138 | a path is answered with the same item whatever was looked up in between, and nothing new is made |

## Left out

- FlashLoader.Loader.EraseBootProm: requires that the sweep ends, because the loop does not otherwise (`AxiMicronN25Q.SweepNeverEnds`).
- FlashImage.ImageWritten: start on a sector, contiguous bytes, range below the last sector of the address space; the chip ends on a sector.
- McsReader.McsRead.Next: a pair of characters that are not hexadecimal digits ends the model's reading (`Undetermined`); the program's `sscanf` leaves a value of its own there.
- ConfigRoundTrip.RestoresExactly: names are distinct at every device, and no variable is named like a type of its own device or of the representative that speaks for it; the loader takes the element of such a variable for the device.
- RegisterRuns.ReturnIsGenuine: excludes attempts issued over a loose end, because the claim is false there (`RegisterRuns.SpoiledExactly`); counters are unbounded and destinations asynchronous.
- RegisterDevice.ReturnIsDone: excludes attempts issued at a hazard, because the claim is false there (`RegisterHazards.HazardReturns`); the device keeps one block of words for each address, so blocks that overlap are told apart, and the words of a frame are taken in one step.
- RegisterHazards.HazardExactly: register and device block fit the receive register.
- RegisterRuns.SpoiledExactly: the register fits the receive register; the program copies what lies behind that otherwise.
- RegisterCache.StepCoherent: how a transaction goes is a parameter of the step; that a return is a good one, and that no late write follows, is what `RegisterRuns.SpoiledExactly`, `RegisterDevice.ReturnIsDone` and `RegisterHazards.WrittenStays` say of the threads, under their conditions. Hardware that changes by itself and writes that are not waited for are not among the steps; `DeviceRegisters.VerifyAfterWrite` allows any later hardware.
- RegisterLink.VariablesToRegister: a single variable over a register of several words, string and enumeration conversion and their errors are not modelled; a variable is its number.
- DeviceDriver.Driver.WriteConfig: registers are a map of the driver, not shared objects, so two devices holding one register object are told apart only by its number; two addresses are never the same.
- DeviceConfig.SetXmlConfig: the tree is a value, so aliasing between devices and the update flag are not modelled; XML is a tree, variable links and set-callbacks are left out.
- CommQueue.CommQueue.Push: without waiting, for one producer.
- Recorder.Recorder.BuffWrite: requires that a single write fits the buffer, as the program's copy does; the operating system writes completely.
- Recorder.Recorder.OpenDataFile: whether an open or allocation succeeds is a parameter; files are append sessions in order of opening.
- Recording.NothingLost: the guards of the recording file are part of a run; the write buffer is enabled before the threads are started, since doing so takes no mutex; the copies that go to the call-back, the network and shared memory are not followed.
- SharedRing.GivenInOrder: entries there is room for, because the claim is false for the others (`SharedRing.OversizedIsSpoiled`); the counter of records does not wrap, the two assignments to the `Last` fields are one step, and so is a call of the reader.
- SharedRing.EntrySurvives: the same.
- ControlHandshake.ExactlyOnce: one client, which does not give up (`ControlHandshake.SecondIsRunExactly`).
- PathIndex.FindPathKeeps: paths that start with a colon are excluded, because the claim is false there (`PathIndex.FindPathExactly`).
- Sockets, `select`, device drivers, shared-memory set-up, clocks, statistics, messages and thread start.
- Run control and its pacing, commands, and the devices that only list registers.
- `AxiMicronP30`, `McsRead::startAddr` and `addrSize`; start address and size are parameters of the loader.
- The hardware behind buffered reads and the streaming interface.
