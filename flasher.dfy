/** The XbitFlasher class: the status query and single-report commands,
    the chunked ReadFlash/WriteFlash transfers, and the bank operations
    Format, EraseBank, FlashBank, ReadBank and VerifyBank, over a Transport.
    Each method is proved against the report sequences and images of Plans. */
module Flasher {
  import opened Config
  import opened Framing
  import opened Layout
  import opened Chunking
  import opened Hid
  import opened Plans

  class XbitFlasher {
    /** The open hid_device. */
    const handle: Transport
    /** memory_layout_id: the layout the bank operations assume. */
    var memoryLayoutId: int
    /** device_initialized. */
    var deviceInitialized: bool
    /** The last status report read by GetStatus; the status predicates read it. */
    var statusBuf: Report
    /** Every WriteFlash call so far, in order. */
    ghost var writeLog: seq<WriteCall>

    /** The constructor only clears device_initialized; the layout and the
        status buffer start with no meaningful value. */
    constructor (handle: Transport)
      ensures this.handle == handle && !deviceInitialized && writeLog == []
    {
      this.handle := handle;
      memoryLayoutId := 0;
      deviceInitialized := false;
      statusBuf := Zeroed();
      writeLog := [];
    }

    /** The effect of a status query whose request was the write at position
        at, issued after prevReads reads: if the request got through, one
        read is made and statusBuf holds whatever it returned. */
    ghost predicate StatusUpdated(prevStatus: Report, prevReads: nat, at: nat)
      reads this, handle
    {
      var delivered := handle.Delivered(at);
      && handle.readCount == prevReads + (if delivered then 1 else 0)
      && statusBuf == (if delivered then ReplyAt(handle.replies, prevReads).data else prevStatus)
    }

    /** Whether that status query succeeded: request delivered, full reply. */
    predicate StatusAnswered(prevReads: nat, at: nat)
    {
      handle.Delivered(at) && ReplyAt(handle.replies, prevReads).count == REPORT_SIZE
    }

    // ---- Device session.

    /** OpenDevice, with whether hid_open found the device and the manufacturer/product string check
        as inputs: a device that does not identify itself is reset and closed;
        otherwise the status is read, and only a successful read records the
        device's layout and marks it initialised. */
    method OpenDevice(deviceFound: bool, identityMatches: bool) returns (ok: bool)
      modifies this`memoryLayoutId, this`deviceInitialized, this`statusBuf, handle
      ensures !deviceFound ==>
        !ok && handle.sent == old(handle.sent) && handle.readCount == old(handle.readCount)
        && statusBuf == old(statusBuf) && memoryLayoutId == old(memoryLayoutId)
        && deviceInitialized == old(deviceInitialized)
      ensures deviceFound && !identityMatches ==>
        !ok && handle.sent == old(handle.sent) + [RESET_REQUEST] && handle.readCount == old(handle.readCount)
        && statusBuf == old(statusBuf) && memoryLayoutId == old(memoryLayoutId) && !deviceInitialized
      ensures deviceFound && identityMatches ==>
        var s0 := |old(handle.sent)|;
        && handle.sent == old(handle.sent) + [STATUS_REQUEST]
        && StatusUpdated(old(statusBuf), old(handle.readCount), s0)
        && ok == StatusAnswered(old(handle.readCount), s0)
        && (ok ==> deviceInitialized && memoryLayoutId == GetMemoryLayout(statusBuf))
        && (!ok ==> deviceInitialized == old(deviceInitialized) && memoryLayoutId == old(memoryLayoutId))
    {
      if !deviceFound {
        return false;
      }
      if !identityMatches {
        var _ := CloseDevice();
        return false;
      }
      var res := GetStatus();
      if !res {
        return false;
      }
      memoryLayoutId := GetMemoryLayout(statusBuf);
      deviceInitialized := true;
      ok := true;
    }

    /** CloseDevice: sends a reset (its result is ignored) and clears device_initialized. */
    method CloseDevice() returns (ok: bool)
      modifies this`deviceInitialized, handle
      ensures ok && !deviceInitialized
      ensures handle.sent == old(handle.sent) + [RESET_REQUEST] && handle.readCount == old(handle.readCount)
    {
      var _ := Reset();
      deviceInitialized := false;
      ok := true;
    }

    // ---- Single-report commands.

    /** GetStatus: sends CMD_GET_STATUS and, if that got through, reads the
        reply into statusBuf; true only if both transfers were whole. */
    method GetStatus() returns (ok: bool)
      modifies this`statusBuf, handle
      ensures handle.sent == old(handle.sent) + [STATUS_REQUEST]
      ensures StatusUpdated(old(statusBuf), old(handle.readCount), |old(handle.sent)|)
      ensures ok == StatusAnswered(old(handle.readCount), |old(handle.sent)|)
    {
      var reportBuf := CommandReport(CMD_GET_STATUS);
      var res := handle.InternalWrite(reportBuf);
      if res != REPORT_SIZE {
        return false;
      }
      statusBuf := Zeroed();
      var n, reply := handle.InternalRead();
      statusBuf := reply;
      ok := n == REPORT_SIZE;
    }

    /** Reset: sends CMD_RESET. */
    method Reset() returns (ok: bool)
      modifies handle
      ensures handle.sent == old(handle.sent) + [RESET_REQUEST] && handle.readCount == old(handle.readCount)
      ensures ok == handle.Delivered(|old(handle.sent)|)
    {
      var res := handle.InternalWrite(CommandReport(CMD_RESET));
      ok := res == REPORT_SIZE;
    }

    /** SetVM: sends CMD_SET_VM with the VM register value. */
    method SetVM(vm: byte) returns (ok: bool)
      modifies handle
      ensures handle.sent == old(handle.sent) + [VmReport(vm)] && handle.readCount == old(handle.readCount)
      ensures ok == handle.Delivered(|old(handle.sent)|)
    {
      var reportBuf := SetRegsReport(CMD_SET_VM, 0, vm);
      var res := handle.InternalWrite(reportBuf);
      ok := res == REPORT_SIZE;
    }

    /** GetBus: SetVM(1). */
    method GetBus() returns (ok: bool)
      modifies handle
      ensures handle.sent == old(handle.sent) + [GET_BUS] && handle.readCount == old(handle.readCount)
      ensures ok == handle.Delivered(|old(handle.sent)|)
    {
      ok := SetVM(1);
    }

    /** ReleaseBus: SetVM(0). */
    method ReleaseBus() returns (ok: bool)
      modifies handle
      ensures handle.sent == old(handle.sent) + [RELEASE_BUS] && handle.readCount == old(handle.readCount)
      ensures ok == handle.Delivered(|old(handle.sent)|)
    {
      ok := SetVM(0);
    }

    /** SetPage: sends CMD_SET_PAGE with page layout_id & 0xFF. */
    method SetPage(layoutId: int) returns (ok: bool)
      modifies handle
      ensures handle.sent == old(handle.sent) + [PageReport(layoutId)] && handle.readCount == old(handle.readCount)
      ensures ok == handle.Delivered(|old(handle.sent)|)
    {
      var reportBuf := SetRegsReport(CMD_SET_PAGE, layoutId % 0x100, 0);
      var res := handle.InternalWrite(reportBuf);
      ok := res == REPORT_SIZE;
    }

    /** EraseBlock: sends CMD_ERASE for block (uchar)sector, address 0. */
    method EraseBlock(sector: int) returns (ok: bool)
      modifies handle
      ensures handle.sent == old(handle.sent) + [EraseReport(sector % 0x100)]
      ensures handle.readCount == old(handle.readCount)
      ensures ok == handle.Delivered(|old(handle.sent)|)
    {
      var reportBuf := EraseReport(sector % 0x100);
      var res := handle.InternalWrite(reportBuf);
      ok := res == REPORT_SIZE;
    }

    // ---- Chunked transfers.

    /** ReadFlash: nothing for nBytes == 0; otherwise a CMD_READ header and,
        if it got through, one read per 63 bytes until a short read.  The
        replies' payloads land in buffer[at..at+nBytes] as they arrive: all of
        it on success, the whole replies before a short one otherwise; no
        other byte of the buffer changes. */
    method ReadFlash(sector: byte, offset: u16, buffer: array<byte>, at: nat, nBytes: u16) returns (ok: bool)
      requires at + nBytes <= buffer.Length
      modifies handle, buffer
      ensures var s0 := |old(handle.sent)|; var r0 := old(handle.readCount); var k := ChunkCount(nBytes);
        var started := nBytes > 0 && handle.Delivered(s0);
        var f := FirstShortReply(handle.replies, r0, k);
        var copied := if !started then 0 else CopiedBytes(handle.replies, r0, nBytes);
        var image := ReadImage(handle.replies, r0, nBytes);
        && handle.sent == old(handle.sent) + (if nBytes == 0 then [] else [RwReport(CMD_READ, sector, offset, nBytes)])
        && ok == (started && f == k)
        && handle.readCount == r0 + (if !started then 0 else if f == k then k else f + 1)
        && buffer[..] == Splice(old(buffer[..]), at, image[..copied])
      ensures forall q :: 0 <= q < buffer.Length && !(at <= q < at + nBytes) ==> buffer[q] == old(buffer[q])
    {
      ghost var orig := buffer[..];
      if nBytes == 0 {
        SpliceOfParts(orig, buffer[..], at, []);
        return false;
      }
      var reportBuf := RwReport(CMD_READ, sector, offset, nBytes);
      var res := handle.InternalWrite(reportBuf);
      if res != REPORT_SIZE {
        SpliceOfParts(orig, buffer[..], at, []);
        return false;
      }
      ok := ReadReplies(buffer, at, nBytes);
      SpliceWithin(orig, buffer[..], at, nBytes,
                   ReadImage(handle.replies, old(handle.readCount), nBytes)[..CopiedBytes(handle.replies, old(handle.readCount), nBytes)]);
    }

    /** The reply loop of ReadFlash: one read per 63 bytes of nBytes until a
        short read, each reply's payload copied to buffer[at..] as it arrives.
        True iff every reply was whole. */
    method ReadReplies(buffer: array<byte>, at: nat, nBytes: u16) returns (ok: bool)
      requires 0 < nBytes && at + nBytes <= buffer.Length
      modifies handle, buffer
      ensures var r0 := old(handle.readCount); var k := ChunkCount(nBytes);
        var f := FirstShortReply(handle.replies, r0, k);
        && handle.sent == old(handle.sent)
        && ok == (f == k)
        && handle.readCount == r0 + (if f == k then k else f + 1)
        && buffer[..] == Splice(old(buffer[..]), at, ReadImage(handle.replies, r0, nBytes)[..CopiedBytes(handle.replies, r0, nBytes)])
    {
      ghost var orig := buffer[..];
      ghost var r0 := handle.readCount;
      ghost var k := ChunkCount(nBytes);
      ghost var image := ReadImage(handle.replies, r0, nBytes);
      var cbRemaining: int := nBytes;
      var pos := 0;
      ghost var i := 0;
      ChunkCountAt(nBytes, 0);
      SpliceOfParts(orig, buffer[..], at, []);
      while cbRemaining != 0
        invariant 0 <= pos <= nBytes && cbRemaining == nBytes - pos
        invariant cbRemaining != 0 ==> pos == CHUNK_PAYLOAD * i && i < k
        invariant cbRemaining == 0 ==> i == k
        invariant handle.readCount == r0 + i && handle.sent == old(handle.sent)
        invariant AllFull(handle.replies, r0, i)
        invariant buffer[..] == Splice(orig, at, image[..pos])
        modifies handle, buffer
        decreases cbRemaining
      {
        var n, reply := handle.InternalRead();
        if n != REPORT_SIZE {
          FirstShortReplyIs(handle.replies, r0, k, i);
          return false;
        }
        FullNext(handle.replies, r0, i);
        var cbData := Min(cbRemaining, CHUNK_PAYLOAD);
        assert reply == ReplyAt(handle.replies, r0 + i).data;
        ghost var before := buffer[..];
        Memcpy(buffer, at + pos, reply[AT_PAYLOAD..AT_PAYLOAD + cbData]);
        ReadChunkStep(orig, before, buffer[..], at, image, handle.replies, r0, nBytes, i, pos, cbData);
        ChunkCountAt(nBytes, i + 1);
        ChunkCountAt(nBytes, i);
        pos := pos + cbData;
        cbRemaining := cbRemaining - cbData;
        i := i + 1;
      }
      ok := true;
    }

    /** WriteFlash: nothing for nBytes == 0; otherwise the CMD_WRITE header and
        the data reports, stopping at the first short write; true iff all of
        them got through, followed then by a status query.  A status checksum
        that differs from the data's is only recorded, never a failure.  A
        failure ends on a write the transport refused (one of its scripted
        faults). */
    method WriteFlash(sector: byte, offset: u16, buffer: seq<byte>, nBytes: u16) returns (ok: bool)
      requires nBytes <= |buffer|
      modifies this`statusBuf, this`writeLog, handle
      ensures var s0 := |old(handle.sent)|; var plan := WritePlan(sector, offset, buffer[..nBytes]);
        && ok == (nBytes > 0 && AllDelivered(handle.writeResults, s0, |plan|))
        && (nBytes == 0 ==> handle.sent == old(handle.sent))
        && (nBytes > 0 && !ok ==> handle.sent == old(handle.sent) + Issued(handle.writeResults, s0, plan))
        && (!ok ==> handle.readCount == old(handle.readCount) && statusBuf == old(statusBuf))
        && (ok ==>
              handle.sent == old(handle.sent) + plan + [STATUS_REQUEST]
              && StatusUpdated(old(statusBuf), old(handle.readCount), s0 + |plan|))
      ensures var s0 := |old(handle.sent)|; var plan := WritePlan(sector, offset, buffer[..nBytes]);
        var mismatch := ok && StatusAnswered(old(handle.readCount), s0 + |plan|)
                        && StatusChecksum(statusBuf) != ByteSum(buffer[..nBytes]) % 0x100;
        writeLog == old(writeLog) + [WriteCall(Chunk(sector, offset, buffer[..nBytes]), ok, mismatch)]
      ensures old(handle.sent) <= handle.sent
      ensures nBytes > 0 && !ok ==> |old(handle.sent)| < |handle.sent| <= |handle.writeResults|
    {
      ghost var ws := handle.writeResults;
      ghost var s0 := |handle.sent|;
      ghost var target := Chunk(sector, offset, buffer[..nBytes]);
      if nBytes == 0 {
        writeLog := writeLog + [WriteCall(target, false, false)];
        return false;
      }
      var checkSum := Checksum(buffer, nBytes);
      var sentAll := SendWriteReports(sector, offset, buffer, nBytes);
      if !sentAll {
        writeLog := writeLog + [WriteCall(target, false, false)];
        return false;
      }
      var statusOk := GetStatus();
      ghost var mismatch := statusOk && StatusChecksum(statusBuf) != checkSum;
      writeLog := writeLog + [WriteCall(target, true, mismatch)];
      ok := true;
    }

    /** The transfer of WriteFlash: the CMD_WRITE header and, if it got
        through, the data reports, stopping at the first short write.  True
        iff all of them got through. */
    method SendWriteReports(sector: byte, offset: u16, buffer: seq<byte>, nBytes: u16) returns (ok: bool)
      requires 0 < nBytes <= |buffer|
      modifies handle
      ensures var s0 := |old(handle.sent)|; var plan := WritePlan(sector, offset, buffer[..nBytes]);
        && handle.readCount == old(handle.readCount)
        && ok == AllDelivered(handle.writeResults, s0, |plan|)
        && handle.sent == old(handle.sent) + Issued(handle.writeResults, s0, plan)
    {
      ghost var ws := handle.writeResults;
      ghost var s0 := |handle.sent|;
      var reportBuf := RwReport(CMD_WRITE, sector, offset, nBytes);
      ghost var frames := Frames(reportBuf, buffer[..nBytes]);
      var res := handle.InternalWrite(reportBuf);
      IssuedCons(ws, s0, reportBuf, frames);
      if res != REPORT_SIZE {
        return false;
      }
      ok := SendDataReports(buffer, nBytes, reportBuf);
      Regroup(old(handle.sent), [reportBuf], Issued(ws, s0 + 1, frames));
    }

    /** The data phase of WriteFlash: one report per min(remaining, 63) bytes
        of buffer[..nBytes], each built over the report before it (the header
        first), stopping at the first short write.  True iff all got through. */
    method SendDataReports(buffer: seq<byte>, nBytes: u16, header: Report) returns (ok: bool)
      requires nBytes <= |buffer|
      modifies handle
      ensures var frames := Frames(header, buffer[..nBytes]); var s0 := |old(handle.sent)|;
        && handle.readCount == old(handle.readCount)
        && ok == AllDelivered(handle.writeResults, s0, |frames|)
        && handle.sent == old(handle.sent) + Issued(handle.writeResults, s0, frames)
    {
      ghost var ws := handle.writeResults;
      ghost var s0 := |handle.sent|;
      ghost var data := buffer[..nBytes];
      ghost var frames := Frames(header, data);
      var reportBuf := header;
      var cbRemaining: int := nBytes;
      var pos := 0;
      ghost var i := 0;
      assert data[pos..] == data;
      while cbRemaining != 0
        invariant 0 <= pos <= nBytes && cbRemaining == nBytes - pos
        invariant |handle.sent| == s0 + i && handle.readCount == old(handle.readCount)
        invariant old(handle.sent) + frames == handle.sent + Frames(reportBuf, data[pos..])
        invariant AllDelivered(ws, s0, i)
        decreases cbRemaining
      {
        var cbData := Min(cbRemaining, CHUNK_PAYLOAD);
        PrefixSlices(buffer, nBytes, pos, cbData);
        FramesStep(reportBuf, data[pos..], cbData);
        ghost var sentBefore := handle.sent;
        ghost var rest := Frames(DataFrame(reportBuf, buffer[pos..pos + cbData]), data[pos + cbData..]);
        reportBuf := DataFrame(reportBuf, buffer[pos..pos + cbData]);
        var res := handle.InternalWrite(reportBuf);
        SendShift(old(handle.sent) + frames, sentBefore, reportBuf, rest);
        if res != REPORT_SIZE {
          FirstFailureIs(ws, s0, |frames|, i);
          SentPrefix(old(handle.sent), frames, handle.sent, rest);
          return false;
        }
        DeliveredNext(ws, s0, i);
        pos := pos + cbData;
        cbRemaining := cbRemaining - cbData;
        i := i + 1;
      }
      ok := true;
    }

    // ---- Bank operations.

    /** Format: refuses an invalid layout and a cached write-protect bit
        before sending anything; otherwise takes the bus, erases blocks
        0..31, sets the page and releases the bus, stopping at the first
        failure (without releasing the bus).  The layout is recorded once the
        page is set. */
    method Format(layout: int) returns (ok: bool)
      modifies this`memoryLayoutId, handle
      ensures handle.readCount == old(handle.readCount)
      ensures var s0 := |old(handle.sent)|; var plan := FormatPlan(layout); var ws := handle.writeResults;
        var go := ValidLayout(layout) && !IsDeviceWriteprotected(statusBuf);
        && handle.sent == old(handle.sent) + (if go then plan[..Attempted(ws, s0, |plan|)] else [])
        && ok == (go && AllDelivered(ws, s0, |plan|))
        && memoryLayoutId == (if go && AllDelivered(ws, s0, |plan| - 1) then layout else old(memoryLayoutId))
    {
      if layout < 1 || layout > BANK_LAYOUT_COUNT {
        return false;
      }
      if IsDeviceWriteprotected(statusBuf) {
        return false;
      }
      ghost var ws := handle.writeResults;
      ghost var s0 := |handle.sent|;
      ghost var plan := FormatPlan(layout);
      FormatPlanAt(layout, 0);
      var res := GetBus();
      SentNext(old(handle.sent), plan, 0, handle.sent);
      if !res {
        StoppedAt(ws, s0, |plan|, 0);
        return false;
      }
      res := EraseBlocks(0, TOTAL_BLOCKS, old(handle.sent), [PageReport(layout), RELEASE_BUS]);
      if !res {
        return false;
      }
      res := SetPage(layout);
      SentNext(old(handle.sent), plan, TOTAL_BLOCKS + 1, handle.sent);
      if !res {
        StoppedAt(ws, s0, |plan|, TOTAL_BLOCKS + 1);
        return false;
      }
      DeliveredNext(ws, s0, TOTAL_BLOCKS + 1);
      memoryLayoutId := layout;
      res := ReleaseBus();
      SentNext(old(handle.sent), plan, TOTAL_BLOCKS + 2, handle.sent);
      if !res {
        StoppedAt(ws, s0, |plan|, TOTAL_BLOCKS + 2);
        return false;
      }
      DeliveredNext(ws, s0, TOTAL_BLOCKS + 2);
      assert plan[..TOTAL_BLOCKS + 3] == plan;
      ok := true;
    }

    /** The erase loops of Format and EraseBank: EraseBlock for count blocks
        from first on, after a bus request that got through, stopping at the
        first short write.  Stated on the plan [GET_BUS] + erases + tail the
        caller follows. */
    method EraseBlocks(first: int, count: nat, ghost prior: seq<Report>, ghost tail: seq<Report>) returns (ok: bool)
      requires var plan := [GET_BUS] + EraseRun(first, count) + tail;
        handle.sent == prior + plan[..1] && AllDelivered(handle.writeResults, |prior|, 1)
      modifies handle
      ensures handle.readCount == old(handle.readCount)
      ensures var plan := [GET_BUS] + EraseRun(first, count) + tail; var s0 := |prior|; var ws := handle.writeResults;
        && (ok ==> handle.sent == prior + plan[..1 + count] && AllDelivered(ws, s0, 1 + count))
        && (!ok ==> handle.sent == prior + plan[..Attempted(ws, s0, |plan|)]
                    && !AllDelivered(ws, s0, 1 + count) && !AllDelivered(ws, s0, |plan|))
    {
      ghost var plan := [GET_BUS] + EraseRun(first, count) + tail;
      ghost var ws := handle.writeResults;
      ghost var s0 := |prior|;
      var i := first;
      ghost var k := 0;
      while i < first + count
        invariant k == i - first && 0 <= k <= count
        invariant handle.sent == prior + plan[..1 + k]
        invariant AllDelivered(ws, s0, 1 + k)
        invariant handle.readCount == old(handle.readCount)
        modifies handle
      {
        var res := EraseBlock(i);
        ErasePlanAt(first, count, tail, k);
        SentNext(prior, plan, 1 + k, handle.sent);
        if !res {
          StoppedAt(ws, s0, |plan|, 1 + k);
          StoppedAt(ws, s0, 1 + count, 1 + k);
          return false;
        }
        DeliveredNext(ws, s0, 1 + k);
        i := i + 1;
        k := k + 1;
      }
      ok := true;
    }

    /** EraseBank: refuses a cached write-protect bit before sending anything;
        otherwise takes the bus, erases the bank's block count of blocks from
        the start block GetStartblockForBank computes, and releases the bus,
        stopping at the first failure. */
    method EraseBank(bank: int) returns (ok: bool)
      requires ValidLayout(memoryLayoutId) && ValidBank(bank)
      modifies handle
      ensures handle.readCount == old(handle.readCount)
      ensures var s0 := |old(handle.sent)|; var ws := handle.writeResults;
        var plan := EraseBankPlan(StartblockForBank(memoryLayoutId, bank), BankBlockCount(memoryLayoutId, bank));
        var go := !IsDeviceWriteprotected(statusBuf);
        && handle.sent == old(handle.sent) + (if go then plan[..Attempted(ws, s0, |plan|)] else [])
        && ok == (go && AllDelivered(ws, s0, |plan|))
    {
      var bankSize := GetSizeForBank(memoryLayoutId, bank);
      var currentBlock := GetStartblockForBank(memoryLayoutId, bank);
      var blockCount := CalculateBlockIndexForOffset(bankSize);
      BlockCountOfBank(memoryLayoutId, bank);
      if IsDeviceWriteprotected(statusBuf) {
        return false;
      }
      ok := EraseUnderBus(currentBlock, blockCount);
    }

    /** EraseBank once the write-protect check has passed: takes the bus,
        erases blockCount blocks from currentBlock on and releases the bus,
        stopping at the first short write. */
    method EraseUnderBus(currentBlock: int, blockCount: nat) returns (ok: bool)
      modifies handle
      ensures handle.readCount == old(handle.readCount)
      ensures var s0 := |old(handle.sent)|; var ws := handle.writeResults;
        var plan := EraseBankPlan(currentBlock, blockCount);
        && handle.sent == old(handle.sent) + plan[..Attempted(ws, s0, |plan|)]
        && ok == AllDelivered(ws, s0, |plan|)
    {
      ghost var ws := handle.writeResults;
      ghost var s0 := |handle.sent|;
      ghost var plan := EraseBankPlan(currentBlock, blockCount);
      EraseBankPlanEnds(currentBlock, blockCount);
      var res := GetBus();
      SentNext(old(handle.sent), plan, 0, handle.sent);
      if !res {
        StoppedAt(ws, s0, |plan|, 0);
        return false;
      }
      res := EraseBlocks(currentBlock, blockCount, old(handle.sent), [RELEASE_BUS]);
      if !res {
        return false;
      }
      res := ReleaseBus();
      SentNext(old(handle.sent), plan, 1 + blockCount, handle.sent);
      if !res {
        StoppedAt(ws, s0, |plan|, 1 + blockCount);
        return false;
      }
      DeliveredNext(ws, s0, 1 + blockCount);
      assert plan[..blockCount + 2] == plan;
      ok := true;
    }

    /** FlashBank: refuses an image whose length is not the bank size, and a
        cached write-protect bit, before sending anything.  Otherwise it erases
        the bank, takes the bus, and writes the image's 32 KiB sub-chunks in
        order to the blocks from the start block on, retrying each WriteFlash
        until it succeeds, then releases the bus; an erase or bus failure ends
        it early. */
    method FlashBank(bank: int, inputData: seq<byte>) returns (ok: bool)
      requires ValidLayout(memoryLayoutId) && ValidBank(bank)
      modifies this`statusBuf, this`writeLog, handle
      ensures |inputData| != GetSizeForBank(memoryLayoutId, bank) || IsDeviceWriteprotected(old(statusBuf)) ==>
        !ok && handle.sent == old(handle.sent) && handle.readCount == old(handle.readCount)
        && writeLog == old(writeLog) && statusBuf == old(statusBuf)
      ensures var start := StartblockForBank(memoryLayoutId, bank); var count := BankBlockCount(memoryLayoutId, bank);
        var s0 := |old(handle.sent)|; var ws := handle.writeResults;
        var erase := EraseBankPlan(start, count);
        |inputData| == GetSizeForBank(memoryLayoutId, bank) && !IsDeviceWriteprotected(old(statusBuf)) ==>
          && (!AllDelivered(ws, s0, |erase|) ==>
                !ok && handle.sent == old(handle.sent) + erase[..Attempted(ws, s0, |erase|)]
                && handle.readCount == old(handle.readCount) && writeLog == old(writeLog) && statusBuf == old(statusBuf))
          && (AllDelivered(ws, s0, |erase|) ==> old(handle.sent) + erase + [GET_BUS] <= handle.sent)
          && (AllDelivered(ws, s0, |erase|) && !handle.Delivered(s0 + |erase|) ==>
                !ok && handle.sent == old(handle.sent) + erase + [GET_BUS]
                && handle.readCount == old(handle.readCount) && writeLog == old(writeLog) && statusBuf == old(statusBuf))
          && (AllDelivered(ws, s0, |erase| + 1) ==>
                && old(writeLog) <= writeLog
                && RetriedUntilSuccess(writeLog[|old(writeLog)|..], SubchunkPlan(start, count, inputData))
                && |handle.sent| > s0 + |erase| + 1
                && handle.sent[|handle.sent| - 1] == RELEASE_BUS
                && ok == handle.Delivered(|handle.sent| - 1))
    {
      var bankSize := GetSizeForBank(memoryLayoutId, bank);
      var startBlock := GetStartblockForBank(memoryLayoutId, bank);
      var blockCount := CalculateBlockIndexForOffset(bankSize);
      BlockCountOfBank(memoryLayoutId, bank);
      if bankSize != |inputData| {
        return false;
      }
      if IsDeviceWriteprotected(statusBuf) {
        return false;
      }
      BlocksAreSectors(blockCount);
      ok := EraseAndWrite(bank, startBlock, blockCount, inputData);
    }

    /** FlashBank once its checks have passed: erases the bank, and if that
        succeeded writes the image under the bus. */
    method EraseAndWrite(bank: int, startBlock: int, blockCount: nat, inputData: seq<byte>) returns (ok: bool)
      requires ValidLayout(memoryLayoutId) && ValidBank(bank) && !IsDeviceWriteprotected(statusBuf)
      requires startBlock == StartblockForBank(memoryLayoutId, bank) && blockCount == BankBlockCount(memoryLayoutId, bank)
      requires |inputData| == SECTORS_PER_BLOCK * blockCount * MAX_SECTOR_SIZE
      modifies this`statusBuf, this`writeLog, handle
      ensures var s0 := |old(handle.sent)|; var ws := handle.writeResults;
        var erase := EraseBankPlan(startBlock, blockCount);
        && (!AllDelivered(ws, s0, |erase|) ==>
              !ok && handle.sent == old(handle.sent) + erase[..Attempted(ws, s0, |erase|)]
              && handle.readCount == old(handle.readCount) && writeLog == old(writeLog) && statusBuf == old(statusBuf))
        && (AllDelivered(ws, s0, |erase|) ==> old(handle.sent) + erase + [GET_BUS] <= handle.sent)
        && (AllDelivered(ws, s0, |erase|) && !handle.Delivered(s0 + |erase|) ==>
              !ok && handle.sent == old(handle.sent) + erase + [GET_BUS]
              && handle.readCount == old(handle.readCount) && writeLog == old(writeLog) && statusBuf == old(statusBuf))
        && (AllDelivered(ws, s0, |erase| + 1) ==>
              && old(writeLog) <= writeLog
              && RetriedUntilSuccess(writeLog[|old(writeLog)|..], SubchunkPlan(startBlock, blockCount, inputData))
              && |handle.sent| > s0 + |erase| + 1
              && handle.sent[|handle.sent| - 1] == RELEASE_BUS
              && ok == handle.Delivered(|handle.sent| - 1))
    {
      ghost var ws := handle.writeResults;
      ghost var s0 := |handle.sent|;
      ghost var erase := EraseBankPlan(startBlock, blockCount);
      var res := EraseBank(bank);
      if !res {
        return false;
      }
      assert Attempted(ws, s0, |erase|) == |erase|;
      ok := WriteImageUnderBus(startBlock, blockCount, inputData);
      Regroup(old(handle.sent), erase, [GET_BUS]);
      if handle.Delivered(s0 + |erase|) {
        DeliveredNext(ws, s0, |erase|);
      }
    }

    /** The part of FlashBank after the erase: takes the bus, writes every
        sub-chunk until it is accepted, and releases the bus; a failed bus
        request ends it at once. */
    method WriteImageUnderBus(startBlock: int, blockCount: nat, inputData: seq<byte>) returns (ok: bool)
      requires |inputData| == SECTORS_PER_BLOCK * blockCount * MAX_SECTOR_SIZE
      modifies this`statusBuf, this`writeLog, handle
      ensures var s1 := |old(handle.sent)|;
        && old(handle.sent) + [GET_BUS] <= handle.sent
        && (!handle.Delivered(s1) ==>
              !ok && handle.sent == old(handle.sent) + [GET_BUS]
              && handle.readCount == old(handle.readCount) && writeLog == old(writeLog) && statusBuf == old(statusBuf))
        && (handle.Delivered(s1) ==>
              && old(writeLog) <= writeLog
              && RetriedUntilSuccess(writeLog[|old(writeLog)|..], SubchunkPlan(startBlock, blockCount, inputData))
              && |handle.sent| > s1 + 1
              && handle.sent[|handle.sent| - 1] == RELEASE_BUS
              && ok == handle.Delivered(|handle.sent| - 1))
    {
      var res := GetBus();
      if !res {
        return false;
      }
      ghost var done := WriteSubchunks(startBlock, blockCount, inputData);
      AppendDrop(old(writeLog), done);
      ok := ReleaseBus();
    }

    /** The nested block and sector loops of FlashBank: every
        MAX_SECTOR_SIZE-byte sub-chunk of the image, in order, each written
        until a call succeeds. */
    method WriteSubchunks(startBlock: int, blockCount: nat, inputData: seq<byte>) returns (ghost done: seq<WriteCall>)
      requires |inputData| == SECTORS_PER_BLOCK * blockCount * MAX_SECTOR_SIZE
      modifies this`statusBuf, this`writeLog, handle
      ensures writeLog == old(writeLog) + done
      ensures RetriedUntilSuccess(done, SubchunkPlan(startBlock, blockCount, inputData))
      ensures old(handle.sent) <= handle.sent
    {
      ghost var prefix := handle.sent;
      ghost var subchunks := SubchunkPlan(startBlock, blockCount, inputData);
      done := [];
      var block := 0;
      while block < blockCount
        invariant 0 <= block <= blockCount
        invariant writeLog == old(writeLog) + done
        invariant RetriedUntilSuccess(done, subchunks[..SECTORS_PER_BLOCK * block])
        invariant prefix <= handle.sent
        modifies this`statusBuf, this`writeLog, handle
      {
        var sector := 0;
        while sector < SECTORS_PER_BLOCK
          invariant 0 <= sector <= SECTORS_PER_BLOCK
          invariant writeLog == old(writeLog) + done
          invariant RetriedUntilSuccess(done, subchunks[..SECTORS_PER_BLOCK * block + sector])
          invariant prefix <= handle.sent
          modifies this`statusBuf, this`writeLog, handle
        {
          var offset := block * BLOCK_SIZE + sector * MAX_SECTOR_SIZE;
          SubchunkAt(startBlock, blockCount, inputData, block, sector);
          ghost var j := SECTORS_PER_BLOCK * block + sector;
          ghost var tries := WriteFlashUntilAccepted((startBlock + block) % 0x100, sector * MAX_SECTOR_SIZE,
                                                     inputData[offset..offset + MAX_SECTOR_SIZE]);
          RetriedAppend(done, subchunks[..j], tries, [subchunks[j]]);
          Regroup(old(writeLog), done, tries);
          PrefixNext(subchunks, j);
          done := done + tries;
          sector := sector + 1;
        }
        block := block + 1;
      }
      assert subchunks[..SECTORS_PER_BLOCK * blockCount] == subchunks;
    }

    /** The retry loop of FlashBank: WriteFlash of one sub-chunk, repeated
        until a call succeeds.  The calls it makes are failed attempts at the
        sub-chunk followed by one success. */
    method WriteFlashUntilAccepted(sector: byte, offset: u16, data: seq<byte>) returns (ghost tries: seq<WriteCall>)
      requires |data| == MAX_SECTOR_SIZE
      modifies this`statusBuf, this`writeLog, handle
      ensures writeLog == old(writeLog) + tries
      ensures RetriedUntilSuccess(tries, [Chunk(sector, offset, data)])
      ensures old(handle.sent) <= handle.sent
    {
      ghost var ws := handle.writeResults;
      ghost var c := Chunk(sector, offset, data);
      assert data[..MAX_SECTOR_SIZE] == data;
      var res := WriteFlash(sector, offset, data, MAX_SECTOR_SIZE);
      ghost var failures: seq<WriteCall> := [];
      ghost var last := WriteCall(c, res, writeLog[|writeLog| - 1].checksumMismatch);
      while !res
        invariant writeLog == old(writeLog) + failures + [last]
        invariant FailedTries(failures, c) && last.target == c && last.ok == res
        invariant old(handle.sent) <= handle.sent
        invariant !res ==> |handle.sent| <= |ws|
        decreases |ws| - |handle.sent| + (if res then 0 else 1)
      {
        ghost var sentBefore := handle.sent;
        res := WriteFlash(sector, offset, data, MAX_SECTOR_SIZE);
        failures := failures + [last];
        last := WriteCall(c, res, writeLog[|writeLog| - 1].checksumMismatch);
      }
      RetriedCons(failures, last, c, [], []);
      tries := failures + [last];
      assert tries + [] == tries && [c] + [] == [c];
    }

    /** ReadBank: refuses a cached write-protect bit before sending anything;
        otherwise takes the bus, reads the bank's 32 KiB sub-chunks in order
        into outputData from the start block on, and releases the bus,
        stopping at the first failure.  On success it reports the bank size as
        the number of bytes read and outputData holds the image the replies
        carried; bytes past the bank size are never touched. */
    method ReadBank(bank: int, outputData: array<byte>) returns (ok: bool, numBytesRead: int)
      requires ValidLayout(memoryLayoutId) && ValidBank(bank)
      requires GetSizeForBank(memoryLayoutId, bank) <= outputData.Length
      modifies handle, outputData
      ensures var size := GetSizeForBank(memoryLayoutId, bank); var count := BankBlockCount(memoryLayoutId, bank);
        var s0 := |old(handle.sent)|; var r0 := old(handle.readCount);
        var plan := ReadBankPlan(StartblockForBank(memoryLayoutId, bank), count);
        && ok == (!IsDeviceWriteprotected(statusBuf) && AllDelivered(handle.writeResults, s0, |plan|)
                  && AllFull(handle.replies, r0, REPLIES_PER_SECTOR * SECTORS_PER_BLOCK * count))
        && old(handle.sent) <= handle.sent && handle.sent[s0..] <= plan
        && (forall q :: size <= q < outputData.Length ==> outputData[q] == old(outputData[q]))
        && (IsDeviceWriteprotected(statusBuf) ==>
              handle.sent == old(handle.sent) && handle.readCount == r0 && outputData[..] == old(outputData[..]))
        && (ok ==>
              && handle.sent == old(handle.sent) + plan
              && handle.readCount == r0 + REPLIES_PER_SECTOR * SECTORS_PER_BLOCK * count
              && numBytesRead == size
              && outputData[..] == Splice(old(outputData[..]), 0, BankImage(handle.replies, r0, SECTORS_PER_BLOCK * count)))
      ensures var count := BankBlockCount(memoryLayoutId, bank); var n := SECTORS_PER_BLOCK * count;
        var s0 := |old(handle.sent)|; var r0 := old(handle.readCount);
        var plan := ReadBankPlan(StartblockForBank(memoryLayoutId, bank), count); var d := |handle.sent| - s0;
        !IsDeviceWriteprotected(statusBuf) ==>
          if AllDelivered(handle.writeResults, s0, n + 1) && AllFull(handle.replies, r0, REPLIES_PER_SECTOR * n) then
            handle.sent == old(handle.sent) + plan && handle.readCount == r0 + REPLIES_PER_SECTOR * n
          else
            0 < d < |plan| && numBytesRead == (if d == 1 then 0 else MAX_SECTOR_SIZE * (d - 2))
      ensures var count := BankBlockCount(memoryLayoutId, bank);
        var s0 := |old(handle.sent)|; var r0 := old(handle.readCount);
        var plan := ReadBankPlan(StartblockForBank(memoryLayoutId, bank), count); var d := |handle.sent| - s0;
        !IsDeviceWriteprotected(statusBuf) ==>
          && (WriteAt(handle.writeResults, s0) != REPORT_SIZE ==>
                handle.sent == old(handle.sent) + [GET_BUS] && !ok && numBytesRead == 0)
          && (WriteAt(handle.writeResults, s0) == REPORT_SIZE && d < |plan| ==>
                2 <= d && SectorFaultAt(handle.writeResults, s0 + 1, handle.replies, r0, d - 2))
    {
      var bankSize := GetSizeForBank(memoryLayoutId, bank);
      var startBlock := GetStartblockForBank(memoryLayoutId, bank);
      var blockCount := CalculateBlockIndexForOffset(bankSize);
      BlockCountOfBank(memoryLayoutId, bank);
      BlocksAreSectors(blockCount);
      if IsDeviceWriteprotected(statusBuf) {
        return false, 0;
      }
      ok, numBytesRead := ReadImageUnderBus(startBlock, blockCount, outputData);
    }

    /** ReadBank once the write-protect check has passed: takes the bus, reads
        the sub-chunks of blockCount blocks from startBlock on into outputData,
        and releases the bus, stopping at the first failure.  The release is
        sent exactly when the bus request, every header and every reply got
        through; otherwise the log stops at the failing write or at the header
        of the sub-chunk whose reply was short, and numBytesRead counts the
        sub-chunks read in full before it. */
    method ReadImageUnderBus(startBlock: int, blockCount: nat, outputData: array<byte>) returns (ok: bool, numBytesRead: int)
      requires SECTORS_PER_BLOCK * blockCount * MAX_SECTOR_SIZE <= outputData.Length
      modifies handle, outputData
      ensures var n := SECTORS_PER_BLOCK * blockCount; var s0 := |old(handle.sent)|; var r0 := old(handle.readCount);
        var plan := ReadBankPlan(startBlock, blockCount);
        && ok == (AllDelivered(handle.writeResults, s0, |plan|) && AllFull(handle.replies, r0, REPLIES_PER_SECTOR * n))
        && old(handle.sent) <= handle.sent && handle.sent[s0..] <= plan
        && (forall q :: n * MAX_SECTOR_SIZE <= q < outputData.Length ==> outputData[q] == old(outputData[q]))
        && (ok ==>
              && handle.sent == old(handle.sent) + plan
              && handle.readCount == r0 + REPLIES_PER_SECTOR * n
              && numBytesRead == n * MAX_SECTOR_SIZE
              && outputData[..] == Splice(old(outputData[..]), 0, BankImage(handle.replies, r0, n)))
      ensures var n := SECTORS_PER_BLOCK * blockCount; var s0 := |old(handle.sent)|; var r0 := old(handle.readCount);
        var plan := ReadBankPlan(startBlock, blockCount); var d := |handle.sent| - s0;
        if AllDelivered(handle.writeResults, s0, n + 1) && AllFull(handle.replies, r0, REPLIES_PER_SECTOR * n) then
          handle.sent == old(handle.sent) + plan && handle.readCount == r0 + REPLIES_PER_SECTOR * n
        else
          0 < d < |plan| && numBytesRead == (if d == 1 then 0 else MAX_SECTOR_SIZE * (d - 2))
      ensures var s0 := |old(handle.sent)|; var r0 := old(handle.readCount); var d := |handle.sent| - s0;
        && (WriteAt(handle.writeResults, s0) != REPORT_SIZE ==>
              handle.sent == old(handle.sent) + [GET_BUS] && !ok && numBytesRead == 0)
        && (WriteAt(handle.writeResults, s0) == REPORT_SIZE && d < |ReadBankPlan(startBlock, blockCount)| ==>
              2 <= d && SectorFaultAt(handle.writeResults, s0 + 1, handle.replies, r0, d - 2))
    {
      numBytesRead := 0;
      ghost var ws := handle.writeResults;
      ghost var s0 := |handle.sent|;
      ghost var n := SECTORS_PER_BLOCK * blockCount;
      ghost var headers := SectorReads(startBlock, n);
      ghost var plan := ReadBankPlan(startBlock, blockCount);
      DeliveredHead(ws, s0, n);
      var res := GetBus();
      if !res {
        StoppedAt(ws, s0, |plan|, 0);
        return false, 0;
      }
      ghost var bus := handle.sent;
      res, numBytesRead := ReadSectors(startBlock, blockCount, outputData);
      BracketedPrefix(old(handle.sent), GET_BUS, headers, RELEASE_BUS, |handle.sent| - |bus|, handle.sent);
      DeliveredBracket(ws, s0, n);
      if !res {
        return false, numBytesRead;
      }
      res := ReleaseBus();
      Regroup(old(handle.sent), [GET_BUS], headers);
      Regroup(old(handle.sent), [GET_BUS] + headers, [RELEASE_BUS]);
      if !res {
        return false, numBytesRead;
      }
      ok := true;
    }

    /** The state of ReadBank's loops once i of the bank's n sub-chunks are
        read in full: their headers sent after prior, every write and reply
        whole, and their images copied over orig into outputData. */
    ghost predicate SectorsRead(prior: seq<Report>, startBlock: int, n: nat, r0: nat, orig: seq<byte>, i: nat,
                                outputData: array<byte>)
      reads handle, outputData
    {
      && i <= n && n * MAX_SECTOR_SIZE <= outputData.Length == |orig| && i * MAX_SECTOR_SIZE <= n * MAX_SECTOR_SIZE
      && handle.sent == prior + SectorReads(startBlock, n)[..i]
      && AllDelivered(handle.writeResults, |prior|, i)
      && handle.readCount == r0 + REPLIES_PER_SECTOR * i && AllFull(handle.replies, r0, REPLIES_PER_SECTOR * i)
      && outputData[..] == Splice(orig, 0, BankImage(handle.replies, r0, i))
    }

    /** Bytes of outputData from n sub-chunks on still hold orig's. */
    ghost predicate PastBankUntouched(orig: seq<byte>, n: nat, outputData: array<byte>)
      reads outputData
    {
      forall q :: n * MAX_SECTOR_SIZE <= q < outputData.Length && q < |orig| ==> outputData[q] == orig[q]
    }

    /** The nested block and sector loops of ReadBank: one ReadFlash per
        sub-chunk, into outputData at the sub-chunk's offset, stopping at the
        first failure.  numBytesRead counts the sub-chunks read in full. */
    method ReadSectors(startBlock: int, blockCount: nat, outputData: array<byte>) returns (ok: bool, numBytesRead: int)
      requires SECTORS_PER_BLOCK * blockCount * MAX_SECTOR_SIZE <= outputData.Length
      modifies handle, outputData
      ensures var n := SECTORS_PER_BLOCK * blockCount; var s0 := |old(handle.sent)|; var r0 := old(handle.readCount);
        var headers := SectorReads(startBlock, n); var done := |handle.sent| - s0;
        && ok == (AllDelivered(handle.writeResults, s0, n) && AllFull(handle.replies, r0, REPLIES_PER_SECTOR * n))
        && s0 <= |handle.sent| && done <= n && handle.sent == old(handle.sent) + headers[..done]
        && (!ok ==> 0 < done && numBytesRead == MAX_SECTOR_SIZE * (done - 1)
                    && SectorFaultAt(handle.writeResults, s0, handle.replies, r0, done - 1))
        && (forall q :: n * MAX_SECTOR_SIZE <= q < outputData.Length ==> outputData[q] == old(outputData[q]))
        && (ok ==>
              && done == n
              && handle.readCount == r0 + REPLIES_PER_SECTOR * n
              && numBytesRead == n * MAX_SECTOR_SIZE
              && outputData[..] == Splice(old(outputData[..]), 0, BankImage(handle.replies, r0, n)))
    {
      ghost var r0 := handle.readCount;
      ghost var orig := outputData[..];
      ghost var n := SECTORS_PER_BLOCK * blockCount;
      numBytesRead := 0;
      SpliceOfParts(orig, outputData[..], 0, []);
      var block := 0;
      ghost var j := 0;
      while block < blockCount
        invariant 0 <= block <= blockCount && j == SECTORS_PER_BLOCK * block
        invariant SectorsRead(old(handle.sent), startBlock, n, r0, orig, j, outputData)
        invariant PastBankUntouched(orig, n, outputData)
        invariant numBytesRead == j * MAX_SECTOR_SIZE
        modifies handle, outputData
      {
        var res := ReadBlockSectors(startBlock, block, outputData, old(handle.sent), r0, orig, n);
        if !res.0 {
          return false, numBytesRead + res.1;
        }
        numBytesRead := numBytesRead + res.1;
        j := j + SECTORS_PER_BLOCK;
        block := block + 1;
      }
      assert SectorReads(startBlock, n)[..n] == SectorReads(startBlock, n);
      ok := true;
    }

    /** The inner loop of ReadBank: the sub-chunks of one block. */
    method ReadBlockSectors(startBlock: int, block: nat, outputData: array<byte>,
                            ghost prior: seq<Report>, ghost r0: nat, ghost orig: seq<byte>, ghost n: nat)
        returns (res: (bool, int))
      requires SECTORS_PER_BLOCK * block + SECTORS_PER_BLOCK <= n
      requires SectorsRead(prior, startBlock, n, r0, orig, SECTORS_PER_BLOCK * block, outputData)
      requires PastBankUntouched(orig, n, outputData)
      modifies handle, outputData
      ensures PastBankUntouched(orig, n, outputData)
      ensures var done := |handle.sent| - |prior|;
        && SECTORS_PER_BLOCK * block < done <= SECTORS_PER_BLOCK * block + SECTORS_PER_BLOCK
        && handle.sent == prior + SectorReads(startBlock, n)[..done]
        && (!res.0 ==> res.1 == (done - 1 - SECTORS_PER_BLOCK * block) * MAX_SECTOR_SIZE)
      ensures !res.0 ==> !(AllDelivered(handle.writeResults, |prior|, n) && AllFull(handle.replies, r0, REPLIES_PER_SECTOR * n))
      ensures !res.0 ==> SectorFaultAt(handle.writeResults, |prior|, handle.replies, r0, |handle.sent| - |prior| - 1)
      ensures res.0 ==>
        && res.1 == SECTORS_PER_BLOCK * MAX_SECTOR_SIZE
        && SectorsRead(prior, startBlock, n, r0, orig, SECTORS_PER_BLOCK * block + SECTORS_PER_BLOCK, outputData)
    {
      var count := 0;
      var sector := 0;
      ghost var j := SECTORS_PER_BLOCK * block;
      while sector < SECTORS_PER_BLOCK
        invariant 0 <= sector <= SECTORS_PER_BLOCK && j == SECTORS_PER_BLOCK * block + sector
        invariant SectorsRead(prior, startBlock, n, r0, orig, j, outputData)
        invariant PastBankUntouched(orig, n, outputData)
        invariant count == sector * MAX_SECTOR_SIZE
      {
        var ok := ReadNextSector(startBlock, block, sector, outputData, prior, r0, orig, n, j);
        if !ok {
          assert |handle.sent| - |prior| - 1 == j;
          return (false, count);
        }
        count := count + MAX_SECTOR_SIZE;
        sector := sector + 1;
        j := j + 1;
      }
      res := (true, count);
    }

    /** One pass of ReadBank's inner loop, stated on the state the loops
        keep: after j sub-chunks read in full, it reads sub-chunk j, and
        either extends that state by one sub-chunk or fails on a fault of the
        session's first n sub-chunk reads. */
    method ReadNextSector(startBlock: int, block: nat, sector: nat, outputData: array<byte>,
                          ghost prior: seq<Report>, ghost r0: nat, ghost orig: seq<byte>, ghost n: nat, ghost j: nat)
        returns (ok: bool)
      requires sector < SECTORS_PER_BLOCK && j == SECTORS_PER_BLOCK * block + sector && j < n
      requires SectorsRead(prior, startBlock, n, r0, orig, j, outputData) && PastBankUntouched(orig, n, outputData)
      modifies handle, outputData
      ensures PastBankUntouched(orig, n, outputData)
      ensures handle.sent == prior + SectorReads(startBlock, n)[..j + 1]
      ensures !ok ==> !(AllDelivered(handle.writeResults, |prior|, n) && AllFull(handle.replies, r0, REPLIES_PER_SECTOR * n))
      ensures !ok ==> SectorFaultAt(handle.writeResults, |prior|, handle.replies, r0, j)
      ensures ok ==> SectorsRead(prior, startBlock, n, r0, orig, j + 1, outputData)
    {
      SectorStep(j, n);
      ReadStep(handle.writeResults, handle.replies, |prior|, r0, n, j);
      ghost var before := outputData[..];
      ok := ReadSector(startBlock, block, sector, outputData);
      SentNext(prior, SectorReads(startBlock, n), j, handle.sent);
      if ok {
        BankImageStep(orig, handle.replies, r0, j, before, outputData[..]);
      }
    }

    /** One pass of ReadBank's inner loop: ReadFlash of sub-chunk `sector`
        of block `block` into outputData at its offset in the bank.  Only
        that sub-chunk's bytes of outputData can change. */
    method ReadSector(startBlock: int, block: nat, sector: nat, outputData: array<byte>) returns (ok: bool)
      requires sector < SECTORS_PER_BLOCK
      requires (SECTORS_PER_BLOCK * block + sector + 1) * MAX_SECTOR_SIZE <= outputData.Length
      modifies handle, outputData
      ensures var j := SECTORS_PER_BLOCK * block + sector; var r0 := old(handle.readCount);
        && handle.sent == old(handle.sent) + [SectorRead(startBlock, j)]
        && ok == (handle.Delivered(|old(handle.sent)|) && AllFull(handle.replies, r0, REPLIES_PER_SECTOR))
        && (forall q :: 0 <= q < outputData.Length && !(j * MAX_SECTOR_SIZE <= q < (j + 1) * MAX_SECTOR_SIZE) ==>
              outputData[q] == old(outputData[q]))
        && (ok ==>
              && handle.readCount == r0 + REPLIES_PER_SECTOR
              && outputData[..] == Splice(old(outputData[..]), j * MAX_SECTOR_SIZE, SectorImage(handle.replies, r0)))
    {
      SectorReadAt(startBlock, block, sector);
      ChunkCountIsCeiling(MAX_SECTOR_SIZE);
      ghost var image := ReadImage(handle.replies, handle.readCount, MAX_SECTOR_SIZE);
      assert image[..MAX_SECTOR_SIZE] == image;
      var offset := block * BLOCK_SIZE + sector * MAX_SECTOR_SIZE;
      ok := ReadFlash((startBlock + block) % 0x100, sector * MAX_SECTOR_SIZE, outputData, offset, MAX_SECTOR_SIZE);
    }

    /** VerifyBank: refuses an image whose length is not the bank size before
        sending anything; otherwise reads the bank into a fresh 2 MiB buffer
        and compares.  True iff the read succeeded, returned the bank size,
        and the image read equals the input byte for byte. */
    method VerifyBank(bank: int, inputData: seq<byte>) returns (ok: bool)
      requires ValidLayout(memoryLayoutId) && ValidBank(bank)
      modifies handle
      ensures |inputData| != GetSizeForBank(memoryLayoutId, bank) ==>
        !ok && handle.sent == old(handle.sent) && handle.readCount == old(handle.readCount)
      ensures var count := BankBlockCount(memoryLayoutId, bank);
        var s0 := |old(handle.sent)|; var r0 := old(handle.readCount);
        var plan := ReadBankPlan(StartblockForBank(memoryLayoutId, bank), count);
        && ok == (|inputData| == GetSizeForBank(memoryLayoutId, bank)
                  && !IsDeviceWriteprotected(statusBuf) && AllDelivered(handle.writeResults, s0, |plan|)
                  && AllFull(handle.replies, r0, REPLIES_PER_SECTOR * SECTORS_PER_BLOCK * count)
                  && BankImage(handle.replies, r0, SECTORS_PER_BLOCK * count) == inputData)
        && old(handle.sent) <= handle.sent && handle.sent[s0..] <= plan
      ensures var count := BankBlockCount(memoryLayoutId, bank);
        var s0 := |old(handle.sent)|; var r0 := old(handle.readCount);
        var plan := ReadBankPlan(StartblockForBank(memoryLayoutId, bank), count); var n := SECTORS_PER_BLOCK * count;
        |inputData| == GetSizeForBank(memoryLayoutId, bank) && !IsDeviceWriteprotected(statusBuf) ==>
          if AllDelivered(handle.writeResults, s0, n + 1) && AllFull(handle.replies, r0, REPLIES_PER_SECTOR * n) then
            handle.sent == old(handle.sent) + plan && handle.readCount == r0 + REPLIES_PER_SECTOR * n
          else
            0 < |handle.sent| - s0 < |plan|
    {
      var buf := new byte[2 * 1024 * 1024];
      var bankSize := GetSizeForBank(memoryLayoutId, bank);
      BlockCountOfBank(memoryLayoutId, bank);
      if bankSize != |inputData| {
        return false;
      }
      var res, bytesRead := ReadBank(bank, buf);
      if !res {
        return false;
      }
      if bytesRead != bankSize {
        return false;
      }
      ok := buf[..bankSize] == inputData;
    }
  }
}
