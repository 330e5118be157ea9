/** What the XbitFlasher operations put on the wire and read back, as values:
    the report sequences of the single-report commands, WriteFlash, Format,
    EraseBank and ReadBank; the 32 KiB sub-chunks FlashBank writes; the
    retry discipline of FlashBank; and the image ReadBank assembles from the
    device's replies.  The class in flasher.dfy is proved against these. */
module Plans {
  import opened Config
  import opened Framing
  import opened Layout
  import opened Chunking
  import opened Hid

  // ---- Single-report commands.

  /** SetVM(vm): the setRegs variant with page 0. */
  function VmReport(vm: byte): Report { SetRegsReport(CMD_SET_VM, 0, vm) }

  /** GetBus() is SetVM(1), ReleaseBus() is SetVM(0). */
  const GET_BUS := VmReport(1)
  const RELEASE_BUS := VmReport(0)

  const STATUS_REQUEST := CommandReport(CMD_GET_STATUS)
  const RESET_REQUEST := CommandReport(CMD_RESET)

  /** SetPage(layoutId): the page byte is layout_id & 0xFF. */
  function PageReport(layoutId: int): Report { SetRegsReport(CMD_SET_PAGE, layoutId % 0x100, 0) }

  /** EraseBlock on blocks first, first+1, ..., each cast to uchar. */
  function EraseRun(first: int, count: nat): seq<Report>
  {
    seq<Report>(count, i => EraseReport((first + i) % 0x100))
  }

  // ---- Multi-report operations.

  /** Format: take the bus, erase all blocks from 0 up, set the page, release the bus. */
  function FormatPlan(layout: int): seq<Report>
  {
    [GET_BUS] + EraseRun(0, TOTAL_BLOCKS) + [PageReport(layout), RELEASE_BUS]
  }

  /** EraseBank: take the bus, erase count blocks from start, release the bus. */
  function EraseBankPlan(start: int, count: nat): seq<Report>
  {
    [GET_BUS] + EraseRun(start, count) + [RELEASE_BUS]
  }

  /** WriteFlash of data to a block at an offset: the CMD_WRITE header, then the data reports
      built over it. */
  function WritePlan(block: byte, offset: u16, data: seq<byte>): seq<Report>
    requires |data| < 0x1_0000
  {
    var header := RwReport(CMD_WRITE, block, offset, |data|);
    [header] + Frames(header, data)
  }

  /** Sub-chunks per block, and replies per sub-chunk read. */
  const SECTORS_PER_BLOCK := 2
  const REPLIES_PER_SECTOR := 521

  /** n blocks are 2n sub-chunks of MAX_SECTOR_SIZE bytes. */
  lemma BlocksAreSectors(n: nat)
    ensures SECTORS_PER_BLOCK == BLOCK_SIZE / MAX_SECTOR_SIZE
    ensures SECTORS_PER_BLOCK * n * MAX_SECTOR_SIZE == n * BLOCK_SIZE
  {
  }

  /** The CMD_READ header of sub-chunk j of a bank starting at block start:
      block start + j/2, sub-offset (j%2) * 0x8000, 0x8000 bytes. */
  function SectorRead(start: int, j: nat): Report
  {
    RwReport(CMD_READ, (start + j / SECTORS_PER_BLOCK) % 0x100, (j % SECTORS_PER_BLOCK) * MAX_SECTOR_SIZE, MAX_SECTOR_SIZE)
  }

  /** Sub-chunk j of block b is sub-chunk 2b + j of the bank. */
  lemma SectorReadAt(start: int, block: nat, sector: nat)
    requires sector < SECTORS_PER_BLOCK
    ensures var j := SECTORS_PER_BLOCK * block + sector;
      && block * BLOCK_SIZE + sector * MAX_SECTOR_SIZE == j * MAX_SECTOR_SIZE
      && (j + 1) * MAX_SECTOR_SIZE == j * MAX_SECTOR_SIZE + MAX_SECTOR_SIZE
      && SectorRead(start, j) == RwReport(CMD_READ, (start + block) % 0x100, sector * MAX_SECTOR_SIZE, MAX_SECTOR_SIZE)
  {
    var j := SECTORS_PER_BLOCK * block + sector;
    assert j / SECTORS_PER_BLOCK == block && j % SECTORS_PER_BLOCK == sector;
  }

  /** The bytes of sub-chunk j of n lie inside the n sub-chunks. */
  lemma SectorStep(j: nat, n: nat)
    requires j < n
    ensures (j + 1) * MAX_SECTOR_SIZE == j * MAX_SECTOR_SIZE + MAX_SECTOR_SIZE <= n * MAX_SECTOR_SIZE
    ensures REPLIES_PER_SECTOR * (j + 1) == REPLIES_PER_SECTOR * j + REPLIES_PER_SECTOR
  {
  }

  /** One sub-chunk read extends the whole run of writes and replies iff its
      own header write and its replies are whole; and a whole run over the
      bank includes them. */
  lemma ReadStep(writeResults: seq<int>, replies: seq<Reply>, s0: nat, r0: nat, n: nat, j: nat)
    requires j < n
    ensures AllDelivered(writeResults, s0, j) && AllFull(replies, r0, REPLIES_PER_SECTOR * j) ==>
      (AllDelivered(writeResults, s0, j + 1) && AllFull(replies, r0, REPLIES_PER_SECTOR * (j + 1)))
      == (WriteAt(writeResults, s0 + j) == REPORT_SIZE && AllFull(replies, r0 + REPLIES_PER_SECTOR * j, REPLIES_PER_SECTOR))
    ensures AllDelivered(writeResults, s0, n) && AllFull(replies, r0, REPLIES_PER_SECTOR * n) ==>
      WriteAt(writeResults, s0 + j) == REPORT_SIZE && AllFull(replies, r0 + REPLIES_PER_SECTOR * j, REPLIES_PER_SECTOR)
  {
    assert REPLIES_PER_SECTOR * (j + 1) == REPLIES_PER_SECTOR * j + REPLIES_PER_SECTOR;
    assert REPLIES_PER_SECTOR * j + REPLIES_PER_SECTOR <= REPLIES_PER_SECTOR * n;
  }

  /** Sub-chunk k is where a run of sub-chunk reads, whose header writes
      start at s and whose replies start at r, first goes wrong: the header
      writes and replies of sub-chunks 0..k-1 are whole, and those of
      sub-chunk k are not. */
  predicate SectorFaultAt(writeResults: seq<int>, s: nat, replies: seq<Reply>, r: nat, k: nat)
  {
    && AllDelivered(writeResults, s, k) && AllFull(replies, r, REPLIES_PER_SECTOR * k)
    && !(AllDelivered(writeResults, s, k + 1) && AllFull(replies, r, REPLIES_PER_SECTOR * (k + 1)))
  }

  /** The read headers of the first n sub-chunks of a bank starting at block start. */
  function SectorReads(start: int, n: nat): (headers: seq<Report>)
    ensures |headers| == n
  {
    seq<Report>(n, j requires 0 <= j => SectorRead(start, j))
  }

  /** ReadBank's writes: take the bus, one read header per sub-chunk, release the bus. */
  function ReadBankPlan(start: int, count: nat): seq<Report>
  {
    [GET_BUS] + SectorReads(start, SECTORS_PER_BLOCK * count) + [RELEASE_BUS]
  }

  /** The n bytes a ReadFlash of n bytes gathers from the replies starting at from. */
  function ReadImage(replies: seq<Reply>, from: nat, n: nat): (image: seq<byte>)
    ensures |image| == n
  {
    Payloads(ReplyReports(replies, from, ChunkCount(n)), n)
  }

  /** The bytes of its image a read of n bytes copies once its header got
      through: all n when every reply is whole, otherwise those of the whole
      replies before the first short one. */
  function CopiedBytes(replies: seq<Reply>, from: nat, n: nat): (c: nat)
    ensures c <= n
  {
    var k := ChunkCount(n);
    var f := FirstShortReply(replies, from, k);
    if f == k then n else Min(CHUNK_PAYLOAD * f, n)
  }

  /** Reply i of a read carries bytes 63*i .. 63*i + min(remaining, 63) of its image. */
  lemma ReadImageAt(replies: seq<Reply>, from: nat, n: nat, i: nat)
    requires i < ChunkCount(n)
    ensures CHUNK_PAYLOAD * i < n
    ensures var c := Min(n - CHUNK_PAYLOAD * i, CHUNK_PAYLOAD);
      ReadImage(replies, from, n)[CHUNK_PAYLOAD * i .. CHUNK_PAYLOAD * i + c]
        == ReplyAt(replies, from + i).data[AT_PAYLOAD .. AT_PAYLOAD + c]
  {
    PayloadsSlice(ReplyReports(replies, from, ChunkCount(n)), n, i, CHUNK_PAYLOAD * i, Min(n - CHUNK_PAYLOAD * i, CHUNK_PAYLOAD));
    ReplyReportsAt(replies, from, ChunkCount(n), i);
  }

  /** Copying the payload of reply i of a read of n bytes after the first
      63 * i bytes of its image extends the copied prefix of the image. */
  lemma ReadChunkStep(orig: seq<byte>, cur: seq<byte>, next: seq<byte>, at: nat, image: seq<byte>,
                      replies: seq<Reply>, from: nat, n: nat, i: nat, pos: nat, c: nat)
    requires image == ReadImage(replies, from, n) && at + n <= |orig|
    requires i < ChunkCount(n) && pos == CHUNK_PAYLOAD * i && c == Min(n - pos, CHUNK_PAYLOAD)
    requires cur == Splice(orig, at, image[..pos])
    requires next == Splice(cur, at + pos, ReplyAt(replies, from + i).data[AT_PAYLOAD..AT_PAYLOAD + c])
    ensures pos + c <= n
    ensures next == Splice(orig, at, image[..pos + c])
  {
    ReadImageAt(replies, from, n, i);
    SpliceStep(orig, cur, next, at, image, pos, c, ReplyAt(replies, from + i).data[AT_PAYLOAD..AT_PAYLOAD + c]);
  }

  /** The image bytes the 521 replies starting at from carry for one sub-chunk. */
  function SectorImage(replies: seq<Reply>, from: nat): (image: seq<byte>)
    ensures |image| == MAX_SECTOR_SIZE
  {
    ChunkCountIsCeiling(MAX_SECTOR_SIZE);
    ReadImage(replies, from, MAX_SECTOR_SIZE)
  }

  /** The image ReadBank assembles from `sectors` sub-chunk reads whose replies start at from. */
  function BankImage(replies: seq<Reply>, from: nat, sectors: nat): (image: seq<byte>)
    ensures |image| == sectors * MAX_SECTOR_SIZE
  {
    if sectors == 0 then []
    else BankImage(replies, from, sectors - 1) + SectorImage(replies, from + REPLIES_PER_SECTOR * (sectors - 1))
  }

  /** Copying the image of sub-chunk j after the first j extends the copied bank image by one sub-chunk. */
  lemma BankImageStep(orig: seq<byte>, replies: seq<Reply>, from: nat, j: nat, cur: seq<byte>, next: seq<byte>)
    requires (j + 1) * MAX_SECTOR_SIZE <= |orig| && j * MAX_SECTOR_SIZE + MAX_SECTOR_SIZE == (j + 1) * MAX_SECTOR_SIZE
    requires cur == Splice(orig, 0, BankImage(replies, from, j))
    requires next == Splice(cur, j * MAX_SECTOR_SIZE, SectorImage(replies, from + REPLIES_PER_SECTOR * j))
    ensures next == Splice(orig, 0, BankImage(replies, from, j + 1))
  {
    SpliceTwice(orig, 0, BankImage(replies, from, j), SectorImage(replies, from + REPLIES_PER_SECTOR * j));
  }

  /** Sub-chunk j of a bank image holds the replies of the j-th sub-chunk read. */
  lemma {:induction false} BankImageSector(replies: seq<Reply>, from: nat, sectors: nat, j: nat)
    requires j < sectors
    ensures BankImage(replies, from, sectors)[j * MAX_SECTOR_SIZE .. (j + 1) * MAX_SECTOR_SIZE]
         == SectorImage(replies, from + REPLIES_PER_SECTOR * j)
  {
    var prev := BankImage(replies, from, sectors - 1);
    var last := SectorImage(replies, from + REPLIES_PER_SECTOR * (sectors - 1));
    assert BankImage(replies, from, sectors) == prev + last;
    assert (j + 1) * MAX_SECTOR_SIZE == j * MAX_SECTOR_SIZE + MAX_SECTOR_SIZE;
    if j < sectors - 1 {
      BankImageSector(replies, from, sectors - 1, j);
      assert (j + 1) * MAX_SECTOR_SIZE <= |prev|;
      assert (prev + last)[j * MAX_SECTOR_SIZE .. (j + 1) * MAX_SECTOR_SIZE] == prev[j * MAX_SECTOR_SIZE .. (j + 1) * MAX_SECTOR_SIZE];
    } else {
      assert j * MAX_SECTOR_SIZE == |prev|;
      SliceOfConcat(prev, last, 0, MAX_SECTOR_SIZE);
    }
  }

  // ---- FlashBank's sub-chunks and its retry.

  /** One WriteFlash target: device block, sub-offset inside it, the bytes. */
  datatype Chunk = Chunk(block: byte, offset: u16, data: seq<byte>)

  /** One WriteFlash call: its target, its result, and whether the status
      checksum it read back differed from its own (a warning only). */
  datatype WriteCall = WriteCall(target: Chunk, ok: bool, checksumMismatch: bool)

  /** FlashBank's sub-chunks of an image for a bank starting at block start:
      sub-chunk j is image[j*0x8000 .. (j+1)*0x8000], written to block
      start + j/2 at sub-offset (j%2) * 0x8000. */
  function SubchunkPlan(start: int, count: nat, image: seq<byte>): (plan: seq<Chunk>)
    requires |image| == SECTORS_PER_BLOCK * count * MAX_SECTOR_SIZE
    ensures |plan| == SECTORS_PER_BLOCK * count
  {
    seq<Chunk>(SECTORS_PER_BLOCK * count, j requires 0 <= j < SECTORS_PER_BLOCK * count =>
      Chunk((start + j / SECTORS_PER_BLOCK) % 0x100, (j % SECTORS_PER_BLOCK) * MAX_SECTOR_SIZE,
            image[j * MAX_SECTOR_SIZE .. (j + 1) * MAX_SECTOR_SIZE]))
  }

  /** Sub-chunk j = 2*block + sector of the plan: the sector's half of the
      block at byte offset block*BLOCK_SIZE + sector*MAX_SECTOR_SIZE. */
  lemma SubchunkAt(start: int, count: nat, image: seq<byte>, block: nat, sector: nat)
    requires |image| == SECTORS_PER_BLOCK * count * MAX_SECTOR_SIZE
    requires block < count && sector < SECTORS_PER_BLOCK
    ensures var j := SECTORS_PER_BLOCK * block + sector; var offset := block * BLOCK_SIZE + sector * MAX_SECTOR_SIZE;
      && j < SECTORS_PER_BLOCK * count && SECTORS_PER_BLOCK * (block + 1) == j + SECTORS_PER_BLOCK - sector
      && offset == j * MAX_SECTOR_SIZE && offset + MAX_SECTOR_SIZE <= |image|
      && SubchunkPlan(start, count, image)[j]
         == Chunk((start + block) % 0x100, sector * MAX_SECTOR_SIZE, image[offset..offset + MAX_SECTOR_SIZE])
  {
    var j := SECTORS_PER_BLOCK * block + sector;
    assert j / SECTORS_PER_BLOCK == block && j % SECTORS_PER_BLOCK == sector;
    assert j + 1 <= SECTORS_PER_BLOCK * count;
    assert (j + 1) * MAX_SECTOR_SIZE <= SECTORS_PER_BLOCK * count * MAX_SECTOR_SIZE;
  }

  /** Every byte of the image is written once, to device address
      start*BLOCK_SIZE + its position in the image (when the blocks need no
      truncation to a byte). */
  lemma SubchunkPlanPlacesImage(start: nat, count: nat, image: seq<byte>, k: nat)
    requires |image| == SECTORS_PER_BLOCK * count * MAX_SECTOR_SIZE
    requires start + count <= 0x100 && k < |image|
    ensures var plan := SubchunkPlan(start, count, image); var c := plan[k / MAX_SECTOR_SIZE];
      && c.data[k % MAX_SECTOR_SIZE] == image[k]
      && c.block * BLOCK_SIZE + c.offset + k % MAX_SECTOR_SIZE == start * BLOCK_SIZE + k
  {
    var j := k / MAX_SECTOR_SIZE;
    assert j * MAX_SECTOR_SIZE <= k < (j + 1) * MAX_SECTOR_SIZE;
    assert j / SECTORS_PER_BLOCK < count;
  }

  /** The calls in log retry each chunk of plan, in order, until it succeeds:
      every call targets the first chunk not yet written, and a successful
      call moves on to the next. */
  ghost predicate RetriedUntilSuccess(log: seq<WriteCall>, plan: seq<Chunk>)
    decreases |log|
  {
    if log == [] then plan == []
    else plan != [] && log[0].target == plan[0]
         && RetriedUntilSuccess(log[1..], if log[0].ok then plan[1..] else plan)
  }

  /** Every call in log is a failed attempt at c. */
  ghost predicate FailedTries(log: seq<WriteCall>, c: Chunk)
  {
    forall i :: 0 <= i < |log| ==> log[i].target == c && !log[i].ok
  }

  /** Targets of the successful calls, in order. */
  ghost function Succeeded(log: seq<WriteCall>): seq<Chunk>
  {
    if log == [] then [] else (if log[0].ok then [log[0].target] else []) + Succeeded(log[1..])
  }

  /** What the retry discipline means: the successful calls are the plan,
      each exactly once and in order, and the last call succeeded. */
  lemma RetriedMeaning(log: seq<WriteCall>, plan: seq<Chunk>)
    requires RetriedUntilSuccess(log, plan)
    ensures Succeeded(log) == plan
    ensures log != [] ==> log[|log| - 1].ok
    ensures forall i :: 0 <= i < |log| ==> log[i].target in plan
  {
    RetriedSucceeded(log, plan);
    RetriedEndsOk(log, plan);
    RetriedTargets(log, plan);
  }

  lemma {:induction false} RetriedSucceeded(log: seq<WriteCall>, plan: seq<Chunk>)
    requires RetriedUntilSuccess(log, plan)
    ensures Succeeded(log) == plan
    decreases |log|
  {
    if log != [] {
      var rest := if log[0].ok then plan[1..] else plan;
      RetriedSucceeded(log[1..], rest);
      if log[0].ok {
        assert plan == [plan[0]] + plan[1..];
      }
    }
  }

  lemma {:induction false} RetriedEndsOk(log: seq<WriteCall>, plan: seq<Chunk>)
    requires RetriedUntilSuccess(log, plan)
    ensures log != [] ==> log[|log| - 1].ok
    decreases |log|
  {
    if |log| == 1 {
      assert log[1..] == [];
    } else if log != [] {
      var rest := if log[0].ok then plan[1..] else plan;
      RetriedEndsOk(log[1..], rest);
      assert log[|log| - 1] == log[1..][|log| - 2];
    }
  }

  lemma {:induction false} RetriedTargets(log: seq<WriteCall>, plan: seq<Chunk>)
    requires RetriedUntilSuccess(log, plan)
    ensures forall i :: 0 <= i < |log| ==> log[i].target in plan
    decreases |log|
  {
    if log != [] {
      var rest := if log[0].ok then plan[1..] else plan;
      RetriedTargets(log[1..], rest);
      forall i | 0 <= i < |log|
        ensures log[i].target in plan
      {
        if i > 0 {
          assert log[i] == log[1..][i - 1];
          if log[0].ok {
            var m :| 0 <= m < |rest| && rest[m] == log[i].target;
            assert plan[m + 1] == log[i].target;
          }
        }
      }
    }
  }

  /** A group of failed attempts at c followed by a successful one, in front
      of a retried log, retries c first. */
  lemma {:induction false} RetriedCons(failures: seq<WriteCall>, success: WriteCall, c: Chunk,
                                       log: seq<WriteCall>, plan: seq<Chunk>)
    requires FailedTries(failures, c) && success.target == c && success.ok
    requires RetriedUntilSuccess(log, plan)
    ensures RetriedUntilSuccess(failures + [success] + log, [c] + plan)
    decreases |failures|
  {
    var whole := failures + [success] + log;
    if failures == [] {
      assert whole == [success] + log;
      assert whole[1..] == log;
      assert ([c] + plan)[1..] == plan;
    } else {
      RetriedCons(failures[1..], success, c, log, plan);
      assert whole[1..] == failures[1..] + [success] + log;
    }
  }

  /** Retrying one plan and then another retries their concatenation. */
  lemma {:induction false} RetriedAppend(log1: seq<WriteCall>, plan1: seq<Chunk>, log2: seq<WriteCall>, plan2: seq<Chunk>)
    requires RetriedUntilSuccess(log1, plan1) && RetriedUntilSuccess(log2, plan2)
    ensures RetriedUntilSuccess(log1 + log2, plan1 + plan2)
    decreases |log1|
  {
    if log1 == [] {
      assert log1 + log2 == log2 && plan1 + plan2 == plan2;
    } else {
      var rest := if log1[0].ok then plan1[1..] else plan1;
      RetriedAppend(log1[1..], rest, log2, plan2);
      assert (log1 + log2)[1..] == log1[1..] + log2;
      assert (plan1 + plan2)[0] == plan1[0];
      if log1[0].ok {
        assert (plan1 + plan2)[1..] == plan1[1..] + plan2;
      }
    }
  }

  // ---- The plans, as the device reads them.

  /** Fields of the i-th erase of a run. */
  lemma EraseRunFields(first: int, count: nat, i: nat)
    requires i < count
    ensures var r := EraseRun(first, count)[i];
      Cmd(r) == CMD_ERASE && Flash(r) == (first + i) % 0x100 && Address(r) == 0
  {
    EraseReportFields((first + i) % 0x100);
  }

  /** Positions in a format plan: the bus, the erases, the page, the release. */
  lemma FormatPlanAt(layout: int, i: nat)
    requires i < TOTAL_BLOCKS
    ensures |FormatPlan(layout)| == TOTAL_BLOCKS + 3
    ensures FormatPlan(layout)[0] == GET_BUS
    ensures FormatPlan(layout)[1 + i] == EraseReport(i)
    ensures FormatPlan(layout)[TOTAL_BLOCKS + 1] == PageReport(layout)
    ensures FormatPlan(layout)[TOTAL_BLOCKS + 2] == RELEASE_BUS
  {
  }

  /** Erase k of a plan that takes the bus and then erases count blocks from first. */
  lemma ErasePlanAt(first: int, count: nat, tail: seq<Report>, k: nat)
    requires k < count
    ensures |[GET_BUS] + EraseRun(first, count) + tail| == 1 + count + |tail|
    ensures ([GET_BUS] + EraseRun(first, count) + tail)[1 + k] == EraseReport((first + k) % 0x100)
  {
  }

  /** The ends of an erase-bank plan, for any count. */
  lemma EraseBankPlanEnds(start: int, count: nat)
    ensures |EraseBankPlan(start, count)| == count + 2
    ensures EraseBankPlan(start, count)[0] == GET_BUS
    ensures EraseBankPlan(start, count)[count + 1] == RELEASE_BUS
  {
  }

  /** A format takes the bus, erases blocks 0..31 in ascending order with
      address 0, sets the page to the layout, and releases the bus. */
  lemma FormatPlanShape(layout: int)
    requires ValidLayout(layout)
    ensures var plan := FormatPlan(layout);
      && |plan| == TOTAL_BLOCKS + 3
      && plan[0] == GET_BUS && plan[|plan| - 1] == RELEASE_BUS
      && Cmd(plan[TOTAL_BLOCKS + 1]) == CMD_SET_PAGE && Flash(plan[TOTAL_BLOCKS + 1]) == layout
      && forall i :: 1 <= i <= TOTAL_BLOCKS ==>
           Cmd(plan[i]) == CMD_ERASE && Flash(plan[i]) == i - 1 && Address(plan[i]) == 0
  {
    var plan := FormatPlan(layout);
    forall i | 1 <= i <= TOTAL_BLOCKS
      ensures Cmd(plan[i]) == CMD_ERASE && Flash(plan[i]) == i - 1 && Address(plan[i]) == 0
    {
      assert plan[i] == EraseRun(0, TOTAL_BLOCKS)[i - 1];
      EraseRunFields(0, TOTAL_BLOCKS, i - 1);
    }
  }

  /** The blocks EraseBank erases: the inclusive start block makes it erase
      the bank's block count of blocks from the block just past the bank on.
      Those blocks can belong to several later banks, or lie past the flash;
      for a bank that ends the flash, every erase names a block the flash
      does not have. */
  lemma EraseBankPlanTargets(layout: int, bank: int)
    requires ValidLayout(layout) && ValidBank(bank)
    ensures var count := BankBlockCount(layout, bank);
      var plan := EraseBankPlan(StartblockForBank(layout, bank), count);
      && |plan| == count + 2 && plan[0] == GET_BUS && plan[|plan| - 1] == RELEASE_BUS
      && (forall i :: 1 <= i <= count ==>
            Cmd(plan[i]) == CMD_ERASE
            && Flash(plan[i]) == BankFirstBlock(layout, bank) + count + i - 1)
      && (BankFirstBlock(layout, bank) + count == TOTAL_BLOCKS ==>
            forall i :: 1 <= i <= count ==> Flash(plan[i]) >= TOTAL_BLOCKS)
  {
    var count := BankBlockCount(layout, bank);
    var start := StartblockForBank(layout, bank);
    var first := BankFirstBlock(layout, bank);
    StartblockIsEndOfBank(layout, bank);
    BanksTileFlash(layout, bank);
    assert start == first + count && 0 <= first && first + count <= TOTAL_BLOCKS;
    EraseBankPlanShape(start, count);
  }

  /** The erases of EraseBankPlan(start, count), for a start that needs no truncation. */
  lemma EraseBankPlanShape(start: nat, count: nat)
    requires start + count <= 0x100
    ensures var plan := EraseBankPlan(start, count);
      && |plan| == count + 2 && plan[0] == GET_BUS && plan[|plan| - 1] == RELEASE_BUS
      && forall i :: 1 <= i <= count ==> Cmd(plan[i]) == CMD_ERASE && Flash(plan[i]) == start + i - 1
  {
    var plan := EraseBankPlan(start, count);
    forall i | 1 <= i <= count
      ensures Cmd(plan[i]) == CMD_ERASE && Flash(plan[i]) == start + i - 1
    {
      assert plan[i] == EraseRun(start, count)[i - 1];
      EraseRunFields(start, count, i - 1);
    }
  }

  /** A write sends one header naming the block, the offset and the byte
      count, then ceil(n/63) data reports with command byte 0 whose payloads,
      concatenated, are the data. */
  lemma WritePlanCarriesData(block: byte, offset: u16, data: seq<byte>)
    requires |data| < 0x1_0000
    ensures var plan := WritePlan(block, offset, data);
      && |plan| == 1 + ChunkCount(|data|)
      && Cmd(plan[0]) == CMD_WRITE && Flash(plan[0]) == block
      && Address(plan[0]) == offset && NBytes(plan[0]) == |data|
      && (forall i :: 1 <= i < |plan| ==> plan[i][AT_REPORT_ID] == 0 && Cmd(plan[i]) == 0)
      && Payloads(plan[1..], |data|) == data
  {
    var header := RwReport(CMD_WRITE, block, offset, |data|);
    RwReportRoundTrip(CMD_WRITE, block, offset, |data|);
    PayloadsOfFrames(header, data);
    FramesAreData(header, data);
    assert WritePlan(block, offset, data)[1..] == Frames(header, data);
  }

  /** ReadBank's header for sub-chunk j names block start + j/2, sub-offset
      (j%2)*0x8000 and a full 0x8000-byte sub-chunk. */
  lemma ReadBankPlanShape(start: nat, count: nat, j: nat)
    requires start + count <= 0x100 && j < SECTORS_PER_BLOCK * count
    ensures var plan := ReadBankPlan(start, count);
      && |plan| == SECTORS_PER_BLOCK * count + 2
      && plan[0] == GET_BUS && plan[|plan| - 1] == RELEASE_BUS
      && Cmd(plan[1 + j]) == CMD_READ && Flash(plan[1 + j]) == start + j / SECTORS_PER_BLOCK
      && Address(plan[1 + j]) == (j % SECTORS_PER_BLOCK) * MAX_SECTOR_SIZE
      && NBytes(plan[1 + j]) == MAX_SECTOR_SIZE
  {
    var plan := ReadBankPlan(start, count);
    assert plan[1 + j] == SectorReads(start, SECTORS_PER_BLOCK * count)[j] == SectorRead(start, j);
    SectorReadFields(start, j);
  }

  /** The read header of sub-chunk j names the j / 2-th block after start, the j % 2-th half of it, and a whole sub-chunk. */
  lemma SectorReadFields(start: nat, j: nat)
    requires start + j / SECTORS_PER_BLOCK < 0x100
    ensures Cmd(SectorRead(start, j)) == CMD_READ && Flash(SectorRead(start, j)) == start + j / SECTORS_PER_BLOCK
    ensures Address(SectorRead(start, j)) == (j % SECTORS_PER_BLOCK) * MAX_SECTOR_SIZE
    ensures NBytes(SectorRead(start, j)) == MAX_SECTOR_SIZE
  {
    var block := start + j / SECTORS_PER_BLOCK;
    assert block % 0x100 == block;
    RwReportRoundTrip(CMD_READ, block, (j % SECTORS_PER_BLOCK) * MAX_SECTOR_SIZE, MAX_SECTOR_SIZE);
  }
}
