# X-Bit modchip flasher: a Dafny model of the flashing engine

The X-Bit flasher programs the 2 MiB flash of an X-Bit modchip over USB HID.
This project models its host-side engine, the `XbitFlasher` class
(`main.cpp`) together with the constants and tables of `xbit.h`. It proves
what each operation puts on the wire, what it reads back and what it leaves
in the caller's buffers.

The model has seven modules.

- **Config** (`config.dfy`) holds the command codes, the report sizes, the VM
  status masks and the flash geometry. It also holds the bank layout table,
  with sizes in KiB, and the DIP-switch table. Lemmas state the shape of these
  tables: every layout fills the flash exactly, every bank is a whole number
  of 64 KiB blocks, and unused banks only trail.
- **Framing** (`framing.dfy`) lays out the 65-byte `REPORT_BUF`. The report id
  is byte 0, and the `MCU_CMD` union follows it.
  - 16-bit fields pass through `SWAP_UINT16` and travel big-endian.
  - The status readers and the bit tests on the VM register read the cached
    status report.
  - The bit tests are proved equal to C's 8-bit `&`.
- **Layout** (`layout.dfy`) covers `GetSizeForBank`,
  `CalculateBlockIndexForOffset` and the `GetStartblockForBank` loop. It also
  defines the intended placement of the banks, which they are compared with.
- **Chunking** (`chunking.dfy`) covers how `ReadFlash` and `WriteFlash` cut a
  transfer into reports of at most 63 payload bytes, and `WriteFlash`'s 8-bit
  checksum. The data reports of a write are built over the previous report,
  which is reused and not cleared.
- **Hid** (`transport.dfy`) is the HID connection, a `Transport` object.
  - It logs every report handed to `hid_write` and counts the feature-report
    reads.
  - The device is a parameter of the model: a script of `hid_write` results
    and a script of replies.
  - A write past the end of its script succeeds, so the faults are finitely
    many. A read past the end fails.
- **Plans** (`plans.dfy`) holds, as values, what each operation should send and
  read.
  - The report sequences of Format, EraseBank, WriteFlash and ReadBank.
  - The 32 KiB sub-chunks FlashBank writes, and its retry discipline.
  - The image ReadFlash and ReadBank assemble from the replies.
- **Flasher** (`flasher.dfy`) is the `XbitFlasher` class. Its fields are the
  layout id, the initialised flag, the cached status report and a ghost log of
  `WriteFlash` calls. Every method is proved against the values of Plans.
  - The single-report commands send exactly their report and return whether
    the write was whole.
  - The multi-report operations send a prefix of their plan, which stops at
    the first short write. They succeed only when every transfer is whole.
  - `ReadFlash` and `ReadBank` leave the assembled image in the caller's
    array. No other byte of the array changes.

In four places the code does something other than what the flasher is
evidently meant to do, or other than the write hook shipped beside it does.
The model follows the code, and states both.

- **Start block (`main.cpp:679`).** Bank b is meant to start just after banks
  1..b-1: `BankFirstBlock` places it there, and `BanksTileFlash` proves that
  the banks placed this way tile the 32 blocks. The loop bound in
  `GetStartblockForBank` is inclusive, so it sums banks 1..b and returns the
  block just past bank b (`StartblockIsEndOfBank`). EraseBank, FlashBank and
  ReadBank then work on bank b's block count of blocks from that block on.
  Those blocks can span several later banks or lie past the flash.
  `EraseBankPlanTargets` states which blocks EraseBank erases.
  `StartblockExamples` works three cases:
  - layout 2, bank 1 covers blocks 16..31, which are banks 2 to 5;
  - layout 1, bank 2 covers blocks 16..23, which are banks 3 and 4;
  - layout 6, bank 1 starts at block 32, one past the end of the flash.

  So start block + block count ≤ 32, which holds of the intended placement,
  does not hold of the code.
- **Write-protect check.** Format, EraseBank, FlashBank and ReadBank refuse a
  write-protected device. They test the bit in the status report cached by
  the last `GetStatus` (`main.cpp:465`, `509`, `549`, `598`). They do not
  query the device again. The model tests the cached `statusBuf`.
- **Bus release.** An operation that takes the bus is meant to release it
  again. The code returns at the first failure after `GetBus` without
  releasing it (`main.cpp:470-488`, `514-526`, `562-566`, `603-620`). In
  the model, the release is sent only when everything before it got through:
  - Format and EraseBank send exactly their plan up to and including the
    first short write;
  - ReadBank stops at the failing write, or at the header of the sub-chunk
    whose reply was short; neither it nor VerifyBank sends the release then;
  - FlashBank ends at once when its erase or its bus request fails.
- **Sub-chunk retry (`main.cpp:573-579`).** When WriteFlash of a sub-chunk
  fails, the code repeats the same WriteFlash without erasing the block
  again. The write hook in `hookDll/hook.c:55-73` wraps the vendor tool's
  WriteFlash with a retry loop. Before each retry of a write at sub-offset
  0, it erases the block again (`hookDll/hook.c:62-63`).
  `WriteFlashUntilAccepted` models the code: failed attempts and then one
  success, with no erase in between.

## Model

| member | source | states |
|---|---|---|
| Config.TableShape | xbit.h:33-54 | The layout table has 6 rows of 6 bank sizes, and the switch table has one entry per bank |
| Config.LayoutsFillFlash | xbit.h:37-45 | The 6 bank sizes of every layout add up to the whole 2 MiB flash (32 blocks of 64 KiB) |
| Config.BankSizesBlockAligned | xbit.h:37-45 | Every table entry is non-negative, and in bytes a multiple of BLOCK_SIZE |
| Config.ZerosOnlyTrail | xbit.h:37-45 | Once a bank of a layout is unused (size 0), every later bank of that layout is unused |
| Config.FirstBankUsed | xbit.h:37-45 | Bank 1 of every layout has a non-zero size |
| Config.GeometryConstants | xbit.h:18-28 | The flash is 2 MiB; command, output and feature reports are 64 bytes; a report with its id byte is 65; a block is two 32 KiB sub-chunks |
| Config.StatusMasksAreSingleBits | xbit.h:23-25 | The bus-free, bus-attached and write-protect masks are bits 0, 1 and 7, pairwise disjoint |
| Config.CommandCodesDistinct | xbit.h:6-13 | The eight command codes are pairwise distinct and lie in 0x01..0x08 |
| Config.SwitchesSelectBank | xbit.h:47-54 | BIOS bank i is selected by switch pattern i, which fits in three DIP switches |
| Framing.SwapUint16 | main.cpp:22 | SWAP_UINT16 moves the low byte to the high byte and the high byte to the low byte |
| Framing.SwapInvolutive | main.cpp:22 | Swapping a 16-bit value twice gives it back |
| Framing.LoadStoreU16 | xbit.h:72-79 | Reading back a stored 16-bit field gives the stored value; no other byte of the report changes |
| Framing.RwReportRoundTrip | main.cpp:291-297 | A read/write header decodes back to its command, block, address and count. Address and count sit big-endian in the report; every byte after the count is zero |
| Framing.EraseReportFields | main.cpp:442-447 | An erase report carries CMD_ERASE, the block in the flash field and address 0 |
| Framing.StatusReadersRoundTrip | main.cpp:115-138 | The status readers recover every field of a status reply: current command, page, VM, return code, checksum. Such a reply is a valid status, and the device is ready exactly when the current command is 0 |
| Framing.HasBitsReadsOneBit | main.cpp:140-153 | Each status test reads one bit of the VM register: bit 0 for bus free, bit 1 for bus attached, bit 7 for write protect |
| Framing.HasBitsIsByteAnd | main.cpp:140-153 | Each status test agrees with C's 8-bit `(vm & MASK) == MASK` |
| Framing.GetCurrentCommand | main.cpp:120-123 | Reads the `currentCmd` byte of the cached status. It has no contract of its own; StatusReadersRoundTrip proves that it recovers that field of a status reply |
| Framing.GetMemoryLayout | main.cpp:125-128 | Reads the `page` byte of the cached status. It has no contract of its own; StatusReadersRoundTrip proves that it recovers that field of a status reply |
| Framing.GetVMState | main.cpp:130-133 | Reads the `vm` byte of the cached status. It has no contract of its own; StatusReadersRoundTrip proves that it recovers that field of a status reply |
| Framing.IsValidStatus | main.cpp:115-118 | Report id 0 and command CMD_GET_STATUS. It has no contract of its own; StatusReadersRoundTrip proves that every status reply satisfies it |
| Framing.IsDeviceReady | main.cpp:135-138 | The current command is 0. It has no contract of its own; StatusReadersRoundTrip states it of a status reply |
| Framing.IsDeviceBusFree | main.cpp:140-143 | `(vm & STATUS_BUS_FREE) == STATUS_BUS_FREE`. It has no contract of its own; HasBitsReadsOneBit and VmPredicatesIndependent prove that it is bit 0 of the VM byte |
| Framing.IsDeviceBusAttached | main.cpp:145-148 | `(vm & STATUS_BUS_ATTACHED) == STATUS_BUS_ATTACHED`. It has no contract of its own; HasBitsReadsOneBit and VmPredicatesIndependent prove that it is bit 1 of the VM byte |
| Framing.IsDeviceWriteprotected | main.cpp:150-153 | `(vm & STATUS_WRITE_PROTECT) == STATUS_WRITE_PROTECT`. It has no contract of its own; HasBitsReadsOneBit and VmPredicatesIndependent prove that it is bit 7 of the VM byte |
| Framing.VmPredicatesIndependent | main.cpp:140-153 | Every combination of the three answers comes from some VM value. In every status report each answer is its own bit of the VM byte, so two reports whose VM bytes agree on that bit give the same answer |
| Layout.GetSizeForBank | main.cpp:685-688 | A bank's size in bytes is non-negative and a multiple of BLOCK_SIZE; bank 1 is never empty |
| Layout.CalculateBlockIndexForOffset | main.cpp:664-674 | An aligned offset within the flash maps to the block that starts there. A misaligned offset maps to (uchar)-1 = 255, which is no block of the flash |
| Layout.GetStartblockForBank | main.cpp:676-683 | The loop's sum is the sum of the sizes of banks 1..bank, converted to a block index |
| Layout.SizesThroughIsPrefixSum | main.cpp:679-681 | The running sum of bank sizes is the table's prefix sum in bytes |
| Layout.SizesThroughBounds | main.cpp:679-681 | The running sum stays aligned and within the flash, is positive from bank 1 on, and reaches exactly the flash size at bank 6 |
| Layout.BanksTileFlash | xbit.h:37-45 | Under the intended placement, each bank ends where the next one begins, and no bank runs past block 32 |
| Layout.StartblockIsEndOfBank | main.cpp:676-683 | GetStartblockForBank returns the intended first block plus the bank's block count, that is the block just past the bank. For a used bank this is strictly after its first block |
| Layout.BlockCountOfBank | main.cpp:505-507 | The block count derived with CalculateBlockIndexForOffset is the bank's size in blocks, between 0 and 32 |
| Layout.StartblockExamples | main.cpp:676-683 | Layout 6, bank 1 gets start block 32, past the end of the flash. Layout 5, bank 1 gets 16, the first block of bank 2. Layout 2, bank 1's 16 blocks from its start block are blocks 16..31, banks 2 to 5. Layout 1, bank 2's 8 blocks are blocks 16..23, banks 3 and 4 |
| Layout.ImageSizeCheck | main.cpp:747-754 | An image LoadFile accepts is a whole number of blocks that fits the flash; a 1,000,000-byte image is refused |
| Chunking.ChunkPayloadIsCommandRoom | main.cpp:320 | A report carries CMD_SIZE - 1 = 63 payload bytes |
| Chunking.ChunkCountIsCeiling | main.cpp:308-330 | The number of reports for n bytes is the ceiling of n / 63: enough for n bytes, and one fewer would not do. A 32 KiB sub-chunk takes 521 reports |
| Chunking.ChunkCountStep | main.cpp:320-323 | One loop pass takes min(remaining, 63) bytes and leaves exactly one report fewer to go |
| Chunking.FramesAreData | main.cpp:388-392 | Every data report of a write has report id 0 and command byte 0 |
| Chunking.PayloadsOfFrames | main.cpp:384-410 | The payloads of a write's data reports, taken in order, are exactly the data written |
| Chunking.PayloadsSlice | main.cpp:318-323 | Report i of a transfer carries bytes 63*i .. 63*i + min(remaining, 63) of its payload |
| Chunking.Memcpy | main.cpp:321 | Copying a piece into the buffer writes exactly the piece at the offset; every other byte is unchanged |
| Chunking.Checksum | main.cpp:352-356 | The unsigned-char accumulator ends as the sum of the first nBytes bytes modulo 256 |
| Hid.Transport.InternalWrite | main.cpp:167-177 | One hid_write: the report is appended to the sent log, and the result is the scripted return value of that write |
| Hid.Transport.InternalRead | main.cpp:155-165 | One feature-report read: the read count advances by one, and the byte count and buffer are those of that scripted reply |
| Plans.WritePlanCarriesData | main.cpp:366-410 | A write sends a header naming the block, the offset and the byte count, then ceil(n/63) data reports with id 0 and command 0. Their payloads, taken in order, are the data |
| Plans.FormatPlanShape | main.cpp:470-496 | A format takes the bus, erases blocks 0..31 in ascending order with address 0, sets the page to the layout and releases the bus |
| Plans.EraseBankPlanShape | main.cpp:514-532 | An erase of count blocks from start takes the bus, erases start, start+1, … in order and releases the bus |
| Plans.EraseBankPlanTargets | main.cpp:505-526 | EraseBank takes the bus, erases the bank's block count of consecutive blocks, and releases the bus. The erases start at the block just past the bank, so they can cover several later banks. For a bank that ends the flash, every erase names a block the flash does not have |
| Plans.ReadBankPlanShape | main.cpp:609-625 | ReadBank takes the bus, sends one header per sub-chunk, then releases the bus. Sub-chunk j's header names block start + j/2, sub-offset (j%2)*0x8000 and 0x8000 bytes |
| Plans.SectorReadFields | main.cpp:613-616 | The read header of sub-chunk j decodes to CMD_READ, block start + j/2, sub-offset (j%2)*0x8000 and a full sub-chunk |
| Plans.BlocksAreSectors | main.cpp:570 | A block is BLOCK_SIZE / MAX_SECTOR_SIZE = 2 sub-chunks, so n blocks are 2n sub-chunks of bytes |
| Plans.SubchunkAt | main.cpp:569-573 | The sector-th sub-chunk of a block is image bytes block*BLOCK_SIZE + sector*MAX_SECTOR_SIZE onward, written to that block at sub-offset sector*MAX_SECTOR_SIZE |
| Plans.SubchunkPlanPlacesImage | main.cpp:568-573 | Every byte of the image is written to flash address start*BLOCK_SIZE + its position in the image |
| Plans.RetriedMeaning | main.cpp:573-579 | Under the retry discipline, the successful calls carry the sub-chunks exactly once each and in order. The last call succeeded, and every call targets some sub-chunk |
| Plans.RetriedCons | main.cpp:573-579 | Failed attempts at a sub-chunk, then one success, then a retried rest, retry the sub-chunk and then the rest |
| Plans.RetriedAppend | main.cpp:569-581 | Retrying one list of sub-chunks and then another retries their concatenation |
| Plans.ReadImageAt | main.cpp:310-323 | Reply i of a read fills bytes 63*i .. 63*i + min(remaining, 63) of its image with that reply's payload |
| Plans.ReadChunkStep | main.cpp:320-323 | Copying reply i's payload after the first 63*i bytes extends the copied prefix of the image by that payload |
| Plans.BankImageSector | main.cpp:611-622 | Sub-chunk j of a bank image is the image the j-th sub-chunk read gathers |
| Plans.BankImageStep | main.cpp:614-621 | Copying sub-chunk j's image after the first j sub-chunks extends the copied bank image by one sub-chunk |
| Flasher.XbitFlasher.constructor | main.cpp:47-52 | A new flasher holds the given connection, is not initialised and has an empty write log |
| Flasher.XbitFlasher.OpenDevice | main.cpp:60-94 | A device that is not found changes nothing. A device that does not identify itself is reset and closed. Otherwise one status query is made, and only its success records the device's layout and marks it initialised |
| Flasher.XbitFlasher.CloseDevice | main.cpp:96-103 | Always succeeds: sends one reset, whatever its result, and clears the initialised flag |
| Flasher.XbitFlasher.GetStatus | main.cpp:179-201 | Sends the status request. If that write is whole, one reply is read into the cached status. True iff both transfers are whole |
| Flasher.XbitFlasher.Reset | main.cpp:203-219 | Sends exactly the reset report; true iff that write is whole |
| Flasher.XbitFlasher.SetVM | main.cpp:221-238 | Sends exactly the set-VM report with the value; true iff that write is whole |
| Flasher.XbitFlasher.GetBus | main.cpp:240-243 | Sends exactly SetVM(1); true iff that write is whole |
| Flasher.XbitFlasher.ReleaseBus | main.cpp:245-248 | Sends exactly SetVM(0); true iff that write is whole |
| Flasher.XbitFlasher.SetPage | main.cpp:250-267 | Sends exactly the set-page report with page layout_id & 0xFF; true iff that write is whole |
| Flasher.XbitFlasher.EraseBlock | main.cpp:427-455 | Sends exactly the erase report for block (uchar)sector with address 0; true iff that write is whole |
| Flasher.XbitFlasher.ReadFlash | main.cpp:269-336 | A read of 0 bytes sends nothing and fails. Otherwise it sends the CMD_READ header and, if that got through, reads until the first short reply. True iff all ceil(n/63) replies are whole. The buffer then holds the image on success, and otherwise the bytes of the whole replies before the short one. No byte outside buffer[at..at+n] changes |
| Flasher.XbitFlasher.ReadReplies | main.cpp:305-330 | The reply loop makes one read per 63 bytes and stops at the first short reply. It copies each whole reply's payload to its place in the image, and returns true iff every reply was whole |
| Flasher.XbitFlasher.WriteFlash | main.cpp:339-425 | A write of 0 bytes sends nothing and fails. Otherwise it sends header and data reports up to the first short write. True iff all are whole, and then a status query follows. A checksum mismatch is only recorded, never a failure. Every call is appended to the write log |
| Flasher.XbitFlasher.SendWriteReports | main.cpp:366-410 | The write's report sequence, sent fail-fast: the issued prefix of the plan, true iff every write of the plan is whole |
| Flasher.XbitFlasher.SendDataReports | main.cpp:384-410 | The data reports, each built over the one before, sent fail-fast. True iff every write is whole |
| Flasher.XbitFlasher.Format | main.cpp:457-500 | An invalid layout or a cached write-protect bit sends nothing and fails. Otherwise it sends the format plan up to the first short write. True iff all of it is whole. The layout is recorded once everything up to the page report got through |
| Flasher.XbitFlasher.EraseBlocks | main.cpp:477-483 | The erase loop sends one erase per block in order, up to the first short write; true iff all are whole |
| Flasher.XbitFlasher.EraseBank | main.cpp:502-535 | A cached write-protect bit sends nothing and fails. Otherwise it sends the erase plan from the computed start block, up to the first short write; true iff all of it is whole |
| Flasher.XbitFlasher.EraseUnderBus | main.cpp:514-534 | Bus request, the erases and the release, up to the first short write; true iff all of it is whole |
| Flasher.XbitFlasher.FlashBank | main.cpp:537-589 | A wrong image size or a cached write-protect bit sends nothing and fails. A failed erase or bus request ends it at once. Otherwise every sub-chunk is written, in order, until a call succeeds; the bus release comes last, and the result is whether it got through |
| Flasher.XbitFlasher.EraseAndWrite | main.cpp:554-588 | After the checks: the erase plan is followed by the bus request and the sub-chunk writes, with the same failure cases as FlashBank |
| Flasher.XbitFlasher.WriteImageUnderBus | main.cpp:562-588 | Takes the bus. If that fails the method stops at once. Otherwise it retries every sub-chunk until accepted and releases the bus, returning whether the release got through |
| Flasher.XbitFlasher.WriteSubchunks | main.cpp:568-581 | The nested block and sector loops write every 32 KiB sub-chunk of the image, in order, each until a call succeeds |
| Flasher.XbitFlasher.WriteFlashUntilAccepted | main.cpp:573-579 | Repeats WriteFlash of one sub-chunk until it succeeds. The calls it makes are failed attempts followed by one success |
| Flasher.XbitFlasher.ReadBank | main.cpp:591-631 | A cached write-protect bit sends nothing and changes nothing. Otherwise it sends a prefix of the read plan and succeeds iff every write and reply is whole. The release is sent exactly when the bus request, every header and every reply got through. A failed bus request stops the log at GET_BUS with 0 bytes read. Otherwise the log stops at the header of the first sub-chunk whose header write or reply failed, and the bytes-read count covers the sub-chunks before it. On success it reports the bank size as bytes read, and the buffer holds the bank image. Bytes past the bank size are never touched |
| Flasher.XbitFlasher.ReadImageUnderBus | main.cpp:603-630 | Bus request, one read per sub-chunk, release. It succeeds iff every write and reply is whole, and the buffer then holds the bank image. The release is sent exactly when the bus request, every header and every reply got through. A failed bus request stops the log at GET_BUS with 0 bytes read. Otherwise a failure stops the log at the header of the first sub-chunk whose header write or reply failed, and the bytes-read count covers the sub-chunks before it |
| Flasher.XbitFlasher.ReadSectors | main.cpp:609-623 | The nested loops read the sub-chunks in order into their places and stop at the first failure. The log ends at the header of the first sub-chunk whose header write or reply failed, and the bytes-read count covers the sub-chunks before it. Bytes past the bank are untouched |
| Flasher.XbitFlasher.ReadBlockSectors | main.cpp:613-622 | Reads the two sub-chunks of one block and counts their bytes. On a failure the log ends at the sub-chunk that failed first, and every earlier sub-chunk of the bank read was whole |
| Flasher.XbitFlasher.ReadNextSector | main.cpp:614-621 | Reads sub-chunk j after j sub-chunks read in full. It either extends the image by one sub-chunk, or fails because sub-chunk j's own header write or reply was short |
| Flasher.XbitFlasher.ReadSector | main.cpp:614-616 | ReadFlash of one sub-chunk to its offset in the bank. Only that sub-chunk's bytes can change, and on success they are its image |
| Flasher.XbitFlasher.VerifyBank | main.cpp:633-662 | A wrong image size sends nothing and fails. Otherwise it reads the bank, and is true iff the read succeeded and the bank image equals the input byte for byte. If the bus request, every header and every reply got through, the whole read plan was sent and one reply was read per 63 bytes of the bank's sub-chunks. Otherwise the log stops before the release |

## Left out

- hidapi itself is left out: `hid_init`, `hid_exit`, `hid_open`, `hid_close` and the strings (`main.cpp:47-58`, `66-85`, `99-100`). OpenDevice takes "device found" and "identity matches" as inputs, and the HID transfers are the Transport's scripts.
- `usleep`, `sleep` and `time`/`difftime` are timing only. The model has no clock.
- `print_bytes`, the `DEBUG` traces, progress output and error messages are left out; they change no state.
- `PrintMemoryBankLayout`, `PrintBankSelection`, `PrintUsage`, `SaveFile` and `main` are left out: console and file I/O and command-line parsing. Of LoadFile, only the size check is modelled (ImageSizeCheck); the file reading is left out.
- The `flash` parameter of ReadFlash, WriteFlash and EraseBlock is left out: the code never reads it.
- GetHandle and IsDeviceInitialized are plain field reads. They are modelled as the fields `handle` and `deviceInitialized`.
- CMD_SET_REGS is defined in `xbit.h` but never sent, so only its code is modelled.
- Flasher.XbitFlasher.WriteFlashUntilAccepted: the source's retry loop is unbounded. The model assumes the transport has finitely many write faults, so a write eventually succeeds; a device that refuses forever is not modelled.
- Flasher.XbitFlasher.WriteFlash: the checksum comparison is recorded in the ghost write log only, because the source only prints a warning.
- Flasher.XbitFlasher.ReadBank: on failure the contract states only that bytes past the bank size are untouched, and not which bytes inside the bank were written. ReadSectors and ReadFlash state that part.
- Flasher.XbitFlasher.ReadBank: returns 0 bytes read on the write-protect and bus-request failures, where the source leaves `*num_bytes_read` unwritten. VerifyBank does not read it on failure.
- Flasher.XbitFlasher.FlashBank: after the bus is taken, the reports sent are stated through the ghost log of WriteFlash calls and each call's own contract, not as one report sequence. It also says that the last report is the bus release.
- Plans.SubchunkPlanPlacesImage: assumes start block + block count ≤ 256, where the `(uchar)` cast of the block number does not wrap. SubchunkPlan itself models the cast for every start block.
- The constants CHUNK_PAYLOAD (63) and SECTORS_PER_BLOCK (2) are written as literals. ChunkPayloadIsCommandRoom and BlocksAreSectors prove that they equal `CMD_SIZE - 1` and `BLOCK_SIZE / MAX_SECTOR_SIZE`.
- `input_data`/`data_length` pairs are a byte sequence and its length. VerifyBank's 2 MiB stack buffer is a fresh array.
