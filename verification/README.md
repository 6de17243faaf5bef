# Verified models of six stateful parts of barebox

The project models, in Dafny, the parts of the boot loader that change state step by step, and proves what
they keep over whole runs. Each part has a value-level model (functions and predicates), an imperative model in
the form of the source (classes, arrays, linked lines, loops) proved against it, and theorems about the model.

| part | source | files |
|---|---|---|
| write-back LRU block cache | `common/block.c` | `BlockModel`, `FlatMemory`, `WorkingSet`, `BlockCache`, `BlockRuns`, `BlockDiscard` |
| boot target selection | `common/bootchooser.c` | `BootStore`, `BootModel`, `BootOrder`, `BootLoad`, `BootRecovery`, `BootSave`, `BootRuns`, `BootSchedule`, `Bootchooser`, `BootCycles` |
| Kermit receiver | `commands/loadb.c` | `KermitCode`, `KermitPacket`, `KermitRun`, `KermitDelivery`, `KermitSend`, `KermitGap`, `KermitFaults`, `Kermit` |
| 2048 move engine | `commands/2048.c` | `TileRow`, `TileBoard`, `Game2048` |
| editor text buffer | `commands/edit.c` | `EditColumns`, `EditFile`, `EditText`, `EditBuffer`, `EditStrings`, `Editor` |
| S-record upload and download | `commands/loads.c`, `common/s_record.c` | `SrecText`, `Srecord` |

`Bytes` and `Seqs` hold what the parts share. `dafny verify dfyconfig.toml` checks the whole project.

## How to read it

**Block cache.** The client's view is a memory of cells, each a known byte or unspecified; only a discarded range
is ever unspecified. `Agrees` ties the eight chunk buffers, the device and the memory together. The device may
fail any request and leave anything in the range of a failed write. `BlockRuns.Run` is the refinement theorem:
whatever the device fails to do, the answers to any sequence of reads, writes, flushes and erases are those of a
plain byte array, a failed write has applied exactly a prefix, and the device was asked to erase exactly what the
client asked to erase. The device keeps a record of its erasures and of the blocks it has stored for good, which a
successful flush brings up to date. `RunInWorkingSet` carries the working-set
bound of the abstract LRU list over to the real cache. Bytes written to a discarded range are at the mercy of
the LRU list: a window that is evicted and looked up again reads as zeros, even after it was written back.
`BlockDiscard.DiscardWriteRead` says exactly when: as soon as eight other windows have been visited since.

**Boot selection.** `BootLoad.GetValues` gives every target that bootchooser_get hands out in terms of the
variables alone: its own settings before the global ones, what is stored, and each reason for a refill. From there
`FirstPick` follows: with nothing stored, the first target that boots is the one with the highest default priority.
Stored values go through the decimal text the environment holds, so a number from 2^31 on is
written as a negative number and comes back as 0; the save/load theorems say exactly what survives. Power cycles
are a state machine over the stored variables, those in RAM and the chooser; it can be cut between any two steps
and any save may fail half way. `BootCycles.PowerCycles` drives the real objects and proves that what they do is
a run of that machine. A save whose first write (of the last chosen target) fails but whose other writes succeed
is a successful save, as in the code.

**Kermit.** `Events` turns the characters on the line into receptions, `Step` is what the receiver does on each,
and the class is proved to do exactly that. A transfer is a list of takes: intact receptions of packets in order,
each packet perhaps repeated, with any spoiled receptions in between, heard with any sequence number or with none.
`TransferWrites` says what any such transfer puts out. A take reaches the output if and only if no number is heard
twice in a row between it and the next take, and it is decoded from the state behind the take before if and only if
the first reception behind that one has another number. So three things go wrong in the code:

- a packet is lost if a number is heard twice in a row before its successor is taken, as when the successor is
  first heard spoiled under its own number or under that of the packet;
- bytes are added if a packet is repeated and no number is heard twice in a row before the repetition, as when it is
  first heard under a wrong number, or if a packet without text follows spoiled data heard under a wrong number;
- a pending quote is lost or used twice if the next packet is first spoiled before its number or heard under the
  number of the packet before, or if a repetition is first heard under another number.

As long as the third does not happen and the other two do not meet, delivery is exactly once if and only if neither
happens (`DeliveredExactly`). If every number that is heard is right, nothing is ever added and the first alone
decides (`DeliveredRight`). With the third once and nothing else, `KermitGap.OneGap` has the exact condition.
`KermitFaults` has a run for each case. That a reception which passes its check is a packet as it was sent is taken
for granted in these theorems; `ShortPacketDamaged` and `LongPacketDamaged` say exactly when it is so for one damaged
character, and that it is always so for one wrong bit. The model's sender computes the check of the protocol from the two parts of an
eight-bit register and announces its quote character in its parameters. `KermitSend.SentFileArrives` takes such a
sender from its parameters and a file to the line, and the receiver back to the file.

**2048.** A slide is "drop the gaps, merge equal neighbours once from the front, fill up with gaps". Contracts of
moves ask that the result fits `uint16_t`, which is exactly when the array can hold it. `gameEnded` is right on
every board with a tile; on a board without any it says the game goes on although no move changes anything.

**Editor.** `Text` is a sequence of lines and a cursor, `Press` is one round of the main loop. The linked list is
proved to be a well-formed doubly linked list of NUL-terminated buffers after every key. Ctrl-D and Ctrl-C are not
text: they end the session, with and without saving. A file is read up to its first NUL character. `EditBuffer` says
what all of this is for: a string with a cursor in it. Its `Change` defines every code of read_key on that string
alone, without lines, and `SessionIsBuffer` proves that any session on the lines is the session on the string, so
the file `Editor.Edit` saves is the string the codes make of the file.

**S-records.** `File` is the text of a memory range. Loading it again puts the same bytes at the same addresses,
plus the load offset, and touches nothing else. A record is accepted exactly if its bytes sum up to 255 in eight
bits, so one changed byte behind the length is always found.

## Model

| member | source | states |
|---|---|---|
| `BlockCache.BlockDevice.constructor` | common/block.c:466-518 | eight idle clean chunks; the memory is exactly the device's contents |
| `BlockCache.BlockDevice.ChunkFlush` | common/block.c:68-89 | a dirty chunk is written back or stays dirty; the memory is unchanged either way, even if the device scribbled |
| `BlockCache.BlockDevice.WritebufferFlush` | common/block.c:94-112 | success leaves no dirty chunk and has the device store all its blocks for good; failure loses nothing |
| `BlockCache.BlockDevice.ChunkGetCached` | common/block.c:118-136 | found exactly if the block is cached, moved to the head, the list changing as an LRU access |
| `BlockCache.BlockDevice.GetChunk` | common/block.c:158-176 | hands out an idle chunk or the written-back least recently used one; on failure the lists are as before |
| `BlockCache.BlockDevice.LoadChunk` | common/block.c:183-217 | a fetched window holds the memory, a discarded one is all zeros and forgets it; on a read error the chunk goes back to the idle list |
| `BlockCache.BlockDevice.BlockCache` | common/block.c:183-217 | loads the aligned window of the block, or leaves memory and list head alone |
| `BlockCache.BlockDevice.BlockGet` | common/block.c:223-244 | the BUG() after block_cache cannot be reached; a device that works always yields the block's chunk at the head |
| `BlockCache.BlockDevice.BlockPut` | common/block.c:303-321 | writes one block into the memory and marks the chunk dirty, or changes nothing |
| `BlockCache.BlockDevice.Read` | common/block.c:246-295 | a successful read returns the bytes of the flat memory for any offset and length, looks up exactly the windows of the range, and gives zeros for a range inside a discarded window that is not cached; a failed one changes nothing but what a discard forgot |
| `BlockCache.BlockDevice.Write` | common/block.c:323-389 | the memory is changed by exactly the first bytes of the buffer, all of them on success; ascending writes after a discard forget nothing |
| `BlockCache.BlockDevice.Flush` | common/block.c:392-399 | success leaves every block of the device holding the memory, all of them stored for good, and ends the discarded range |
| `BlockCache.BlockDevice.DiscardRange` | common/block.c:415-423 | what fully discarded windows hold becomes unspecified, nothing else changes |
| `BlockCache.BlockDevice.Erase` | common/block.c:425-453 | either the device is not asked, the memory stays and an error is returned, or it is asked once, for exactly these blocks, with no chunk left that overlaps them, and the memory of these blocks is what the device left there; -EOPNOTSUPP without an erase function |
| `BlockModel.CoversIffWindow` | common/block.c:118-136 | a chunk covers a block exactly if it starts at the block's aligned window |
| `BlockModel.OneCover` | common/block.c:183-217 | no block is in two buffered chunks |
| `BlockModel.WriteBackAgrees` | common/block.c:68-89 | a device write to a dirty chunk's window, complete or not, keeps device, buffers and memory in agreement |
| `BlockModel.DropAgrees` | common/block.c:158-176 | a clean chunk can be dropped without changing the memory |
| `BlockModel.LoadAgrees` | common/block.c:198-214 | a chunk filled for an uncached window can be listed without changing the memory |
| `BlockModel.PutAgrees` | common/block.c:303-321 | overwriting a block in its chunk changes that block of the memory and no other |
| `BlockModel.FrontierFetch` | common/block.c:198-205 | visiting windows in ascending order after a discard never reaches that case |
| `FlatMemory.ReadAfterWrite` | common/block.c:246-389 | a read of what was just written returns it |
| `FlatMemory.ReadDeterministic` | common/block.c:246-295 | where every cell is known, only one answer to a read is right |
| `WorkingSet.WorkingSetBound` | common/block.c:118-176 | accesses confined to at most as many windows as buffers load no window twice, from any starting list |
| `WorkingSet.BoundIsTight` | common/block.c:158-176 | one window more, visited in a cycle, is loaded again |
| `WorkingSet.StaysExactly` | common/block.c:118-176 | the window at the head stays cached if and only if fewer other windows than there are buffers are visited |
| `BlockRuns.Run` | common/block.c:246-453 | for every sequence of operations and every pattern of device failures, the replies are those of a plain array, and the erasures of the device are those of the replies, in order; on a device that does not fail every request inside it succeeds |
| `BlockRuns.Session` | common/block.c:392-518 | from registration to a successful flush: the device ends up equal to the array and has stored all of it for good |
| `BlockRuns.RunInWorkingSet` | common/block.c:118-217 | on the real cache, operations confined to at most eight windows read no window from the device twice |
| `BlockRuns.DiscardThenWrite` | common/block.c:323-423 | discard, ascending writes and a flush: the device holds the flat memory those writes make of the discarded one |
| `BlockRuns.WriteAllCell` | common/block.c:323-423 | byte by byte: written bytes are those of their extent, all others as before |
| `BlockDiscard.Revisit` | common/block.c:118-217 | a discarded window at the head, any operations on other windows, a read of any range inside it: the memory's bytes if fewer than eight other windows were visited, zeros otherwise, so with a byte that is not zero the read is right if and only if it was fewer |
| `BlockDiscard.DiscardWriteRead` | common/block.c:183-423 | discard, write any range inside one discarded window, other operations, read it: the written bytes come back if and only if fewer than eight other windows were visited or all of them are zero |
| `BlockDiscard.LosesWrite` | common/block.c:198-205 | a run in which the byte 1 is written to a discarded device, eight other windows are read, and it reads back as 0 |
| `BootStore.FormatParse` | common/bootchooser.c:188-262 | a 32-bit value written with %d and read back: itself below 2^31, 0 from there on |
| `BootStore.FormatParseExact` | common/bootchooser.c:188-262 | so it survives if and only if it is below 2^31 |
| `BootStore.NumberRead` | lib/kstrtox.c:22-80 | a number in hex behind 0x, in octal behind 0 or in decimal is read modulo 2^32, up to the first character that is no digit of its base; 0 where there is no digit |
| `BootLoad.NamesRead` | common/bootchooser.c:415-430 | names without spaces, written one space apart, are read back; two spaces end the list |
| `BootLoad.LoadedValues` | common/bootchooser.c:188-225 | every loaded target has the name of its number, its own default values or else the global ones, and its stored values or else the defaults |
| `BootLoad.GetValues` | common/bootchooser.c:350-516 | priority and attempts of every target bootchooser_get hands out, as an expression over the variables: refills by reset source, by all-zero resets and by a successful boot, and disabling at zero attempts |
| `BootLoad.FirstBoot` | common/bootchooser.c:350-516 | with nothing stored every target has its default priority and, if enabled, its default attempts, whatever resets are configured |
| `BootLoad.FirstPick` | common/bootchooser.c:350-688 | then the first OK target is one with the highest default priority, and the first configured among equals, and picking it takes one of its default attempts unless the configuration or attempts_locked forbids it |
| `BootOrder.LoadDescending` | common/bootchooser.c:207-216 | stable sorted insertion of all targets gives descending priorities |
| `BootOrder.OrderKept` | common/bootchooser.c:423-503 | bootchooser_get ends in descending priority unless the all-zero priority reset fired |
| `BootOrder.OrderExact` | common/bootchooser.c:423-503 | if and only if it did not fire, or the default priorities descend among the targets that are enabled in the end, for every configuration |
| `BootOrder.AllDisabledKeepsOrder` | common/bootchooser.c:446-456 | with every stored priority 0 the list is in configured order |
| `BootOrder.ResetDoesNotSort` | common/bootchooser.c:446-456 | an environment in which the reset leaves a lower priority in front of a higher one |
| `BootRecovery.AllZeroRecovery` | common/bootchooser.c:446-503 | with the all-zero attempts reset and positive defaults, a bootable target comes out if and only if one is enabled after the priority step |
| `BootRecovery.AlwaysBootable` | common/bootchooser.c:446-503 | with both all-zero resets and positive defaults, always |
| `BootSave.GetIsOk` | common/bootchooser.c:350-516 | a chooser just loaded has valid target numbers and a valid last chosen target, so it can be saved |
| `BootSave.SaveThenLoad` | common/bootchooser.c:226-262 | what the next load finds under a saved target's name |
| `BootSave.SaveThenLoadExact` | common/bootchooser.c:524-561 | priority and attempts come back if and only if both are below 2^31 and a disabled target has no attempts |
| `BootSave.SaveThenLoadLast` | common/bootchooser.c:484-489 | the next load finds the target with the saved number as the last chosen one if and only if the number is below 2^31, and none otherwise |
| `BootSave.LoadStable` | common/bootchooser.c:207-216 | a load gives every configured target, sorted by priority and by number among equals |
| `BootSave.SaveThenLoadAll` | common/bootchooser.c:226-262 | a saved list whose values can be stored is loaded back whole, in the same order |
| `BootSave.SaveThenGet` | common/bootchooser.c:350-561 | the next bootchooser_get gives the whole saved chooser back if every value is below 2^31 and no reset is due |
| `BootSave.SaveOverwrites` | common/bootchooser.c:524-561 | whatever earlier, half failed saves left in RAM, a save leaves the same values as on top of the stored ones; only last_chosen, when its write fails unnoticed, is left over |
| `BootRuns.NextKeeps` | common/bootchooser.c:655-688 | every step of the power-cycle machine, with stored variables, variables in RAM and saves that stop anywhere, keeps boots plus attempts left within attempts at first plus failed saves |
| `BootRuns.BootsBounded` | common/bootchooser.c:655-688 | over any number of power cycles cut anywhere, a target is booted at most as often as first stored, plus once per boot whose save failed |
| `BootCycles.PowerCycles` | common/bootchooser.c:350-688 | the real store and chooser do what each action says, or nothing where it does not apply, and their history is a run of that machine, so their boots have the same bound, without any excess if no write fails |
| `BootCycles.BootsAre` | common/bootchooser.c:842-895 | the boots of a target that the machine counts are exactly the boot actions that found something while it was picked, and what it counts as unsaved are at most the picks that left the disk as it was |
| `BootSchedule.PickIsNext` | common/bootchooser.c:655-688 | the first OK target is the head of the schedule, and counting it down leaves the tail |
| `BootSchedule.ScheduleBlock` | common/bootchooser.c:897-909 | each OK target is scheduled for exactly its remaining attempts, in list order |
| `BootSchedule.ScheduleDescends` | common/bootchooser.c:897-909 | in a sorted list no target is tried before one of higher priority |
| `BootSchedule.RetryEnds` | common/bootchooser.c:897-909 | with every boot failing the rounds end if the counters are unlocked; with locked ones only if nothing was bootable at first |
| `Bootchooser.Bootchooser.AddSorted` | common/bootchooser.c:207-216 | inserts behind all targets of the same or higher priority |
| `Bootchooser.Bootchooser.ResetAllAttempts` | common/bootchooser.c:316-324 | the attempt counter of every enabled target is set to its default |
| `Bootchooser.Bootchooser.ResetAllPriorities` | common/bootchooser.c:332-338 | every priority is set to its default, the order stays |
| `Bootchooser.GetBootchooser` | common/bootchooser.c:350-516 | the whole of bootchooser_get equals its value-level definition, -ENODEV without the state backend, -EINVAL without targets, and reports the reset it used up |
| `Bootchooser.Bootchooser.SaveTo` | common/bootchooser.c:524-561 | either the stored state is the saved chooser or the stored state is untouched |
| `Bootchooser.Bootchooser.GetTarget` | common/bootchooser.c:655-688 | picks the first OK target, counts it down unless locked, and saves before returning; -ENOENT changes nothing |
| `Bootchooser.BootOne` | common/bootchooser.c:842-895 | one try: which target, which result, and whether to try again |
| `Bootchooser.BootWithRetry` | common/bootchooser.c:897-909 | terminates, having tried a prefix of the schedule until one boots, or all of it with -ENOENT |
| `Bootchooser.BootOnce` | common/bootchooser.c:897-909 | without retry: exactly one try |
| `KermitCode.UnquoteAppend` | commands/loadb.c:224-239 | decoding does not depend on where the text is cut, even behind a quote character |
| `KermitCode.UnquoteEncoded` | commands/loadb.c:76-84 | unquoting inverts every admissible quoting for every legal quote character |
| `KermitCode.QuoteEncodes` | commands/loadb.c:224-239 | the usual sender's quoting is admissible and has no control characters |
| `KermitCode.SplitDecodes` | commands/loadb.c:204-239 | the parts of any split into packets decode to parts of the file, in order and complete |
| `KermitPacket.ShortPacketParses` | commands/loadb.c:344-533 | a packet with a one-character length and the check of the protocol is received as sent |
| `KermitPacket.LongPacketParses` | commands/loadb.c:448-475 | the same for the extended length with its header check |
| `KermitPacket.CheckAgrees` | commands/loadb.c:398-533 | the receiver's check of any characters is that of the protocol: the two high bits of an eight-bit sum added to its six low ones, in six bits, made printable |
| `KermitPacket.ShortPacketDamaged` | commands/loadb.c:344-533 | a short packet with one other printable character behind its length is taken for good if and only if the check is the same, with exactly which text, and never if one bit is wrong |
| `KermitPacket.LongPacketDamaged` | commands/loadb.c:344-533 | the same for the data of a long packet |
| `KermitPacket.LongHeadDamaged` | commands/loadb.c:448-475 | a long packet with one wrong bit in its head behind the blank length is refused before its data is read |
| `KermitRun.NoiseDone` | commands/loadb.c:400-513 | what any number of spoiled receptions does: the last number heard, the pending quote of the checkpoint or the current one by the first of them, the waiting data kept if and only if no number is heard twice in a row, and what is left in the data buffer |
| `KermitRun.TransferWrites` | commands/loadb.c:400-533 | what any transfer puts out, whatever is spoiled, misheard and repeated: a take is put out if and only if no number is heard twice in a row up to the next take |
| `KermitDelivery.DeliveredExactly` | commands/loadb.c:400-533 | if every take is decoded from the right pending quote and there are not both losses and additions, the output is what was sent if and only if there is neither |
| `KermitDelivery.FileArrives` | commands/loadb.c:400-533 | so under the same conditions the output is the file if and only if nothing is lost or added, however it was quoted, cut and repeated |
| `KermitDelivery.HeardRightAddsNothing` | commands/loadb.c:420-440 | if every sequence number that is heard is right, nothing is added |
| `KermitDelivery.DeliveredRight` | commands/loadb.c:400-533 | then, if no pending quote is disturbed, the output is what was sent if and only if every packet whose predecessor carried data is first heard intact |
| `KermitFaults.SpoiledPacketLosesData` | commands/loadb.c:420-440 | two letters of which the first is lost if and only if the second packet is first heard spoiled under its own number or that of the first |
| `KermitFaults.MisheardRepeats` | commands/loadb.c:420-440 | a letter whose repetition is first heard spoiled: delivered twice if and only if it is heard under another number |
| `KermitFaults.MisheardAdds` | commands/loadb.c:420-533 | a break packet first heard as spoiled data: the data is delivered with the file unless it was heard under the break packet's number |
| `KermitFaults.LossAndRepetition` | commands/loadb.c:400-533 | a transfer with a loss and an addition that arrives whole |
| `KermitGap.ImmuneIff` | commands/loadb.c:224-239 | a text decodes to the same bytes with and without a pending quote if and only if it starts with an even number of quotes and then ends or goes on with a character that quoting does not change |
| `KermitGap.OneGap` | commands/loadb.c:400-533 | if exactly the last takes of the packets are put out but one take is decoded from the wrong state, the output is what was sent if and only if the packet before it leaves the pending quote as it was or the text from that take on is such a text |
| `KermitFaults.GapGarbles` | commands/loadb.c:508-513 | a transfer of the byte 1 that arrives as the letter A, although every packet is first heard intact |
| `KermitFaults.ErrorsCancel` | commands/loadb.c:400-533 | a transfer of two quote characters with two takes decoded from the wrong state and a lost packet that arrives whole, so neither error alone decides |
| `KermitDelivery.WiresSeen` | commands/loadb.c:344-533 | the receptions are exactly the packets put on the line, up to the break packet |
| `KermitDelivery.TransferOnLine` | commands/loadb.c:344-533 | from the file to the line and back, with any repetitions |
| `KermitSend.SentFileArrives` | commands/loadb.c:253-533 | the file arrives from any sender that announces its parameters, or a first part of them, quotes with the character it announced or the number sign otherwise, and cuts anywhere |
| `Kermit.Receiver.DataAlloc` | commands/loadb.c:144-157 | a new buffer of the announced length |
| `Kermit.Receiver.DataSave` | commands/loadb.c:159-192 | appends the old buffer to the output through the 4096-byte buffer, and the current one becomes the old one |
| `Kermit.Receiver.KDataChar` | commands/loadb.c:204-239 | one character through the unquoting; at most one byte more in a buffer that has room |
| `Kermit.Receiver.Sequence` | commands/loadb.c:420-440 | checkpoint on a new sequence number, restore and dump on a repeated one |
| `Kermit.Receiver.ReceiveText` | commands/loadb.c:483-499 | the data field fits the allocated buffer and is decoded as read; stops at the first control character |
| `Kermit.Receiver.ReceivePacket` | commands/loadb.c:400-531 | a packet does to the receiver what `Step` says of the reception the characters make |
| `Kermit.Receiver.KRecv` | commands/loadb.c:344-533 | the receiver ends in the run over all receptions of the line; returns the byte total, or 0 after an interrupt |
| `Kermit.Receiver.LoadSerialBin` | commands/loadb.c:540-581 | after the final flush the file holds every byte put out, and its length is returned |
| `Kermit.LoadAny` | commands/loadb.c:540-581 | end to end on any line: the file received is what the transfer on it puts out, and its size is returned |
| `Kermit.Load` | commands/loadb.c:540-581 | end to end on a line that carries a file and nothing else: the file arrives and its size is returned |
| `TileRow.FeedClosed` | commands/2048.c:103-125 | feeding a row tile by tile computes drop-gaps-and-merge and the merged sum |
| `TileRow.SlideSum` | commands/2048.c:103-125 | a slide conserves the sum of the tiles |
| `TileRow.MovedCloser` | commands/2048.c:112-121 | every move conserves the sum and brings value closer to the front, so a changed row cannot change back |
| `TileRow.TargetIs` | commands/2048.c:78-101 | the target findTarget finds is the last tile if it merges, and the place behind it otherwise |
| `Game2048.Game.FindTarget` | commands/2048.c:78-101 | the nearest place in front that is not empty or is the stop decides |
| `Game2048.Game.SlideArray` | commands/2048.c:103-125 | the row becomes its slide, the score grows by the merged sum, true exactly if the row changed |
| `Game2048.Game.RotateBoard` | commands/2048.c:127-140 | the in-place four-cycles are a quarter turn for every size |
| `TileBoard.FourTurns` | commands/2048.c:127-140 | four quarter turns are the identity |
| `Game2048.Game.MoveUp` | commands/2048.c:142-150 | every row slides towards y = 0; true exactly if the board changed; score |
| `Game2048.Game.MoveLeft` | commands/2048.c:152-161 | every tile slides towards x = 0; true exactly if the board changed; score |
| `Game2048.Game.MoveDown` | commands/2048.c:163-172 | every tile slides towards the last y; true exactly if the board changed; score |
| `Game2048.Game.MoveRight` | commands/2048.c:174-183 | every tile slides towards the last x; true exactly if the board changed; score |
| `TileBoard.LeftByTurns` | commands/2048.c:152-161 | turn, slide, three turns is the slide of all columns |
| `TileBoard.DownByTurns` | commands/2048.c:163-172 | two turns, slide, two turns is the slide of all reversed rows |
| `TileBoard.RightByTurns` | commands/2048.c:174-183 | three turns, slide, turn is the slide of all reversed columns |
| `TileBoard.MovesConserve` | commands/2048.c:142-183 | no move changes the total of the board |
| `Game2048.Game.FindPairDown` | commands/2048.c:185-195 | true exactly if some row has equal neighbours |
| `Game2048.Game.CountEmpty` | commands/2048.c:197-209 | the number of empty places |
| `TileBoard.RowStuckIff` | commands/2048.c:103-125 | no slide along a row changes it if and only if it is empty, or full without equal neighbours |
| `TileBoard.EndedIff` | commands/2048.c:211-222 | what gameEnded looks at holds if and only if no move changes the board and the board has a tile or no places at all |
| `TileBoard.EmptyBoardGoesOn` | commands/2048.c:211-222 | on the empty board no move changes anything, and the game has not ended |
| `Game2048.Game.GameEnded` | commands/2048.c:211-222 | returns that answer and leaves the board as it was |
| `EditColumns.ScreenLine` | commands/edit.c:44-71 | the line with tabs expanded, cut at the buffer, or a tilde without a line; and the column of the cursor exactly if it is on the screen |
| `EditColumns.Setpos` | commands/edit.c:73-89 | the one index that covers the column |
| `EditColumns.SetPosInverts` | commands/edit.c:44-89 | setpos undoes screenline's column mapping at every index |
| `EditFile.LoadSaved` | commands/edit.c:173-270 | lines free of newline and NUL load back as saved |
| `EditFile.SaveLoaded` | commands/edit.c:173-270 | a loaded file is saved unchanged, with exactly one newline appended if it did not end in one |
| `EditText.InsertBackspace` | commands/edit.c:658-680 | typing a character that is no control code of the editor and backspace restore text and cursor |
| `EditText.NewlineBackspace` | commands/edit.c:654-671 | a newline and backspace restore text and cursor |
| `EditText.TypeText` | commands/edit.c:272-288 | any letters typed stand in the cursor's line before the cursor, which is behind them, and every other line stays |
| `EditBuffer.OneCode` | commands/edit.c:560-681 | each code of read_key does to the lines what `Change` says for the text as one string: cursor keys, pages, deleting, joining, breaking and typing |
| `EditBuffer.SessionIsBuffer` | commands/edit.c:560-681 | so does any sequence of codes: the text and the place of the cursor are those of the string |
| `EditBuffer.TypedText` | commands/edit.c:272-323 | typed text, newlines included, is inserted at the cursor and nothing else changes |
| `EditBuffer.DeletedText` | commands/edit.c:290-341 | any number of Delete keys takes as many characters behind the cursor, across lines, but not the last newline |
| `EditBuffer.BackspacedText` | commands/edit.c:658-671 | any number of backspaces takes as many characters before the cursor, across lines |
| `EditBuffer.SavedFile` | commands/edit.c:173-681 | what is saved after any codes is what they make of the file as a string |
| `EditStrings.InsertAt` | commands/edit.c:272-288 | the in-place shift inserts the character; a NUL cuts the line |
| `EditStrings.DeleteAt` | commands/edit.c:290-300 | the in-place shift removes the character |
| `EditStrings.StrCat` | commands/edit.c:325-341 | joins two lines in place |
| `Editor.Editor.InsertChar` | commands/edit.c:272-288 | the cursor's line gets the character, every other line and the list stay |
| `Editor.Editor.DeleteChar` | commands/edit.c:290-300 | the cursor's line loses the character, every other line and the list stay |
| `Editor.Editor.SplitLine` | commands/edit.c:302-323 | links a new line holding the tail, and the list is well formed |
| `Editor.Editor.MergeLine` | commands/edit.c:325-341 | unlinks the next line after appending it, and the list is well formed |
| `Editor.Editor.ReadFile` | commands/edit.c:173-225 | the list holds the lines of the file, one empty line for an empty or missing one; -1 and no line if it cannot be read |
| `Editor.Editor.SaveFile` | commands/edit.c:240-270 | writes the lines with newlines, or a prefix of that if writing fails, or nothing if opening fails; succeeds on a file system that does not fail |
| `Editor.Editor.LookAt` | commands/edit.c:560-568 | clamps the cursor into its line and takes its column |
| `Editor.Editor.Handle` | commands/edit.c:600-680 | the list does what the key does to the text |
| `Editor.Editor.Run` | commands/edit.c:560-681 | for every sequence of codes from read_key, up to the first Ctrl-C or Ctrl-D: the list is well formed, the cursor in it, and the text is that of the session with the keys of the codes |
| `Editor.Edit` | commands/edit.c:482-687 | load, any codes: Ctrl-C leaves the file alone, Ctrl-D saves the session's lines, which load back as they were and are the string the codes make of the file, and an unreadable file is an error |
| `Srecord.SaveSerial` | commands/loads.c:181-236 | writes the file of the memory range, or a prefix of it if the user interrupts |
| `Srecord.DumpRecord` | commands/loads.c:205-230 | a record of at most sixteen bytes with a valid checksum fits the 48-byte buffer |
| `Srecord.RecordText` | commands/loads.c:209-224 | the accumulated bytes make the checksum of length, address and data |
| `SrecText.RecordSums` | commands/loads.c:195-224 | the bytes any record text spells, checksum included, sum up to 255 in eight bits |
| `SrecText.HexAt` | commands/loads.c:195-204 | every byte stands in the text as two upper-case hex digits |
| `SrecText.AddressText` | commands/loads.c:209-224 | the address field is the address in eight hex digits |
| `SrecText.ChecksumDecides` | common/s_record.c:13-153 | srec_decode refuses a whole record of any type if and only if its bytes do not sum up to 255, and otherwise gives what the type says |
| `SrecText.ChangedByteRefused` | common/s_record.c:131-153 | a record with one changed byte behind the length is refused |
| `SrecText.DecodeTyped` | common/s_record.c:13-153 | srec_decode returns type, address and data of a well-formed record |
| `SrecText.DecodeRecord` | common/s_record.c:13-153 | each S3 record decodes to its address and bytes |
| `SrecText.LoadRecords` | commands/loads.c:60-146 | the records of a range store it at contiguous addresses |
| `SrecText.LongLineCut` | commands/loads.c:118-148 | a line that does not fit the buffer is cut there, and the rest of it is the next line |
| `SrecText.LoadAborted` | commands/loads.c:60-146 | ^C or NUL inside a line ends the load with exactly the records before it stored |
| `SrecText.LoadStops` | commands/loads.c:60-146 | so does a line that is no record, has an unknown type or a wrong checksum |
| `SrecText.RoundTrip` | commands/loads.c:60-236 | loading what was saved stores exactly the saved bytes and ends at the end record |
| `Srecord.MemoryCopied` | commands/loads.c:60-236 | so every byte of the range is copied to its address plus the offset, and nothing else changes |

## Left out

- Device drivers, DMA, devfs registration, partition reparsing, automount, statistics and `block_op_close`: calls into other code without logic of their own.
- Read-only block devices: their dirty chunks are never written, so the refinement does not apply to them.
- What an erase leaves in the erased blocks: the device decides, so the model takes whatever it finds there.
- BlockCache.BlockDevice.BlockPut: the new contents are patched into a copy of the block before the second lookup, not into the chunk itself, because the lookup does not read them.
- Block device sizes and byte offsets are unbounded integers; 64-bit overflow of an offset is not modelled.
- The variable names of the environment are structured keys instead of formatted strings, and the state backend is a map with an atomic commit.
- Reference counting, printing and freeing of the boot chooser, and the boot entries a target stands for: booting is an outcome given from outside.
- Retry with locked attempt counters: `RetryEnds` shows that it does not end as long as boots fail.
- Kermit.Receiver.DataSave: a failing write, after which k_recv goes on without looking at the result; the model's file takes every write.
- Kermit.Receiver.LoadSerialBin: the exits for a buffer that cannot be allocated and for a failing last write.
- Kermit: out of memory in `os_data_alloc`, padding and the contents of answer packets, console and baud rate handling, and the error state that k_recv keeps in a local variable and never uses again.
- KermitDelivery.DeliveredExactly: transfers with losses and additions, with two or more takes decoded from the wrong state, or with one and a loss or addition have no condition beside the output `TransferWrites` gives, because there errors can cancel out (`KermitFaults.LossAndRepetition`, `KermitFaults.ErrorsCancel`).
- Spoiled packets whose check still matches: the theorems about transfers take a reception with a matching check for a packet as it was sent.
- KermitPacket.ShortPacketDamaged: a damaged length, which moves the place of the check.
- A silent line: where k_recv would wait for ever, the model returns and says so.
- 2048: drawing, placing of random tiles and keys; moves are stated for boards whose result fits 16 bits, and the score wraps at 32 bits.
- Editor: screen contents beyond the cursor line, scrolling, vi key mapping, and freeing of lines; `xrealloc` never fails.
- Srecord.SaveSerial: ranges that end above the 32-bit address space, for which the address field would overflow.
- S-records whose length field is smaller than address and checksum: the model decodes them as records without data.
- load_serial: echo, progress dots and the `filesize` variable; memory is a map from addresses to bytes.
