/** Bank and block arithmetic of XbitFlasher (GetSizeForBank,
    CalculateBlockIndexForOffset, GetStartblockForBank), and the intended
    placement of banks it is compared against. */
module Layout {
  import opened Config
  import opened Framing

  predicate ValidLayout(layout: int) { 1 <= layout <= BANK_LAYOUT_COUNT }
  predicate ValidBank(bank: int) { 1 <= bank <= BANKS_MAX }

  /** Size of a bank in bytes: the table gives KiB.  Every size is a whole
      number of blocks, and the first bank of a layout is never empty. */
  function GetSizeForBank(layout: int, bank: int): (size: int)
    requires ValidLayout(layout) && ValidBank(bank)
    ensures size >= 0 && size % BLOCK_SIZE == 0
    ensures bank == 1 ==> size > 0
  {
    BankSizesBlockAligned(layout - 1, bank - 1);
    FirstBankUsed(layout - 1);
    BANK_LAYOUT[layout - 1][bank - 1] * 1024
  }

  /** Block index of a byte offset as the code computes it, result cast to
      uchar: 0 for offset 0, (uchar)-1 = 255 for an offset that is not a
      multiple of BLOCK_SIZE, the quotient otherwise.  The division is exact
      there, so C's truncating division and Dafny's agree.  An aligned offset
      inside the flash maps to the block that starts there; a misaligned one
      maps to 255, which is no block of the flash. */
  function CalculateBlockIndexForOffset(offset: int): (block: byte)
    ensures offset % BLOCK_SIZE != 0 ==> block == 255 >= TOTAL_BLOCKS
    ensures 0 <= offset <= TOTAL_BLOCKS * BLOCK_SIZE && offset % BLOCK_SIZE == 0 ==>
      block * BLOCK_SIZE == offset && block <= TOTAL_BLOCKS
  {
    if offset == 0 then 0
    else if offset % BLOCK_SIZE != 0 then 255
    else (offset / BLOCK_SIZE) % 0x100
  }

  /** Sum of the sizes of banks 1..bank of a layout (0 when bank <= 0). */
  function SizesThrough(layout: int, bank: int): int
    requires ValidLayout(layout) && bank <= BANKS_MAX
    decreases bank
  {
    if bank <= 0 then 0 else SizesThrough(layout, bank - 1) + GetSizeForBank(layout, bank)
  }

  /** The start block GetStartblockForBank computes: the loop bound is
      inclusive, so it converts the sum of banks 1..bank, not 1..bank-1. */
  function StartblockForBank(layout: int, bank: int): byte
    requires ValidLayout(layout) && bank <= BANKS_MAX
  {
    CalculateBlockIndexForOffset(SizesThrough(layout, bank))
  }

  /** GetStartblockForBank: accumulates the bank sizes in a loop. */
  method GetStartblockForBank(layout: int, bank: int) returns (block: int)
    requires ValidLayout(layout) && bank <= BANKS_MAX
    ensures block == StartblockForBank(layout, bank)
  {
    var offset := 0;
    var i := 1;
    while i <= bank
      invariant 1 <= i <= (if bank >= 1 then bank + 1 else 1)
      invariant offset == SizesThrough(layout, i - 1)
    {
      offset := offset + GetSizeForBank(layout, i);
      i := i + 1;
    }
    if bank >= 1 {
      assert i == bank + 1;
    } else {
      assert i == 1 && SizesThrough(layout, bank) == 0 == SizesThrough(layout, 0);
    }
    assert offset == SizesThrough(layout, bank);
    block := CalculateBlockIndexForOffset(offset);
  }

  /** First block of a bank, as the banks are meant to be laid out: after the
      sizes of banks 1..bank-1. */
  function BankFirstBlock(layout: int, bank: int): int
    requires ValidLayout(layout) && ValidBank(bank)
  {
    SizesThrough(layout, bank - 1) / BLOCK_SIZE
  }

  /** Number of blocks a bank occupies. */
  function BankBlockCount(layout: int, bank: int): nat
    requires ValidLayout(layout) && ValidBank(bank)
  {
    GetSizeForBank(layout, bank) / BLOCK_SIZE
  }

  /** The running sum is the table's prefix sum in bytes. */
  lemma {:induction false} SizesThroughIsPrefixSum(layout: int, bank: int)
    requires ValidLayout(layout) && 0 <= bank <= BANKS_MAX
    ensures SizesThrough(layout, bank) == SumKb(BANK_LAYOUT[layout - 1][..bank]) * 1024
  {
    var row := BANK_LAYOUT[layout - 1];
    if bank == 0 {
      assert row[..0] == [];
    } else {
      SizesThroughIsPrefixSum(layout, bank - 1);
      assert row[..bank][..bank - 1] == row[..bank - 1];
    }
  }

  /** The running sum grows with the bank number, stays aligned, and reaches
      exactly the size of the flash at the last bank. */
  lemma {:induction false} SizesThroughBounds(layout: int, bank: int)
    requires ValidLayout(layout) && 0 <= bank <= BANKS_MAX
    ensures 0 <= SizesThrough(layout, bank) <= TOTAL_BLOCKS * BLOCK_SIZE
    ensures SizesThrough(layout, bank) % BLOCK_SIZE == 0
    ensures bank >= 1 ==> SizesThrough(layout, bank) > 0
    ensures SizesThrough(layout, BANKS_MAX) == TOTAL_BLOCKS * BLOCK_SIZE
  {
    SizesThroughAligned(layout, bank);
    SizesThroughMonotone(layout, bank, BANKS_MAX);
    SizesThroughIsPrefixSum(layout, BANKS_MAX);
    assert BANK_LAYOUT[layout - 1][..BANKS_MAX] == BANK_LAYOUT[layout - 1];
    LayoutsFillFlash(layout - 1);
    if bank >= 1 {
      SizesThroughMonotone(layout, 1, bank);
    }
  }

  lemma {:induction false} SizesThroughAligned(layout: int, bank: int)
    requires ValidLayout(layout) && 0 <= bank <= BANKS_MAX
    ensures SizesThrough(layout, bank) >= 0
    ensures SizesThrough(layout, bank) % BLOCK_SIZE == 0
  {
    if bank > 0 {
      SizesThroughAligned(layout, bank - 1);
    }
  }

  lemma {:induction false} SizesThroughMonotone(layout: int, bank: int, bank': int)
    requires ValidLayout(layout) && 0 <= bank <= bank' <= BANKS_MAX
    ensures SizesThrough(layout, bank) <= SizesThrough(layout, bank')
    decreases bank' - bank
  {
    if bank < bank' {
      SizesThroughMonotone(layout, bank, bank' - 1);
    }
  }

  /** The intended layout tiles the flash: each bank ends where the next one
      starts, and no bank runs past block TOTAL_BLOCKS. */
  lemma BanksTileFlash(layout: int, bank: int)
    requires ValidLayout(layout) && ValidBank(bank)
    ensures BankFirstBlock(layout, bank) >= 0
    ensures BankBlockCount(layout, bank) * BLOCK_SIZE == GetSizeForBank(layout, bank)
    ensures BankFirstBlock(layout, bank) + BankBlockCount(layout, bank) <= TOTAL_BLOCKS
    ensures bank < BANKS_MAX ==>
      BankFirstBlock(layout, bank + 1) == BankFirstBlock(layout, bank) + BankBlockCount(layout, bank)
  {
    SizesThroughBounds(layout, bank - 1);
    SizesThroughBounds(layout, bank);
  }

  /** What GetStartblockForBank computes: because of the inclusive bound, it
      is the block just past the bank (the intended first block plus the
      bank's own block count), i.e. where the next bank starts. */
  lemma StartblockIsEndOfBank(layout: int, bank: int)
    requires ValidLayout(layout) && ValidBank(bank)
    ensures StartblockForBank(layout, bank) == BankFirstBlock(layout, bank) + BankBlockCount(layout, bank)
    ensures GetSizeForBank(layout, bank) > 0 ==> StartblockForBank(layout, bank) > BankFirstBlock(layout, bank)
  {
    SizesThroughBounds(layout, bank);
    BanksTileFlash(layout, bank);
  }

  /** The block count the bank operations derive with CalculateBlockIndexForOffset
      is the bank's size in blocks. */
  lemma BlockCountOfBank(layout: int, bank: int)
    requires ValidLayout(layout) && ValidBank(bank)
    ensures CalculateBlockIndexForOffset(GetSizeForBank(layout, bank)) == BankBlockCount(layout, bank)
    ensures BankBlockCount(layout, bank) * BLOCK_SIZE == GetSizeForBank(layout, bank)
    ensures 0 <= BankBlockCount(layout, bank) <= TOTAL_BLOCKS
  {
    BanksTileFlash(layout, bank);
  }

  /** Layout 6, bank 1 (the whole flash) gets start block 32, one past the last block;
      layout 5, bank 1 gets 16, the first block of bank 2.  A bank operation
      covers the bank's block count from that start block on, which can run
      over several later banks: layout 2, bank 1 (16 blocks) covers blocks
      16..31, i.e. banks 2 to 5; layout 1, bank 2 (8 blocks) covers blocks
      16..23, i.e. banks 3 and 4. */
  lemma StartblockExamples()
    ensures StartblockForBank(6, 1) == 32 == TOTAL_BLOCKS
    ensures StartblockForBank(5, 1) == 16 == BankFirstBlock(5, 2)
    ensures BankFirstBlock(6, 1) == 0 && BankFirstBlock(5, 2) == 16 && BankBlockCount(5, 2) == 16
    ensures StartblockForBank(2, 1) == 16 == BankFirstBlock(2, 2) && BankBlockCount(2, 1) == 16
    ensures BankFirstBlock(2, 5) + BankBlockCount(2, 5) == 32 == 16 + BankBlockCount(2, 1)
    ensures StartblockForBank(1, 2) == 16 == BankFirstBlock(1, 3) && BankBlockCount(1, 2) == 8
    ensures BankFirstBlock(1, 4) + BankBlockCount(1, 4) == 24 == 16 + BankBlockCount(1, 2)
  {
  }

  /** The size check LoadFile applies to an image before any device access:
      at most 2 MiB and a multiple of BLOCK_SIZE. */
  predicate ImageSizeAccepted(size: int)
  {
    !(size > 2 * 1024 * 1024) && size % BLOCK_SIZE == 0
  }

  /** An accepted image is a whole number of blocks that fits the flash; a
      1,000,000-byte image is refused. */
  lemma ImageSizeCheck(size: int)
    requires size >= 0
    ensures ImageSizeAccepted(size) ==>
      CalculateBlockIndexForOffset(size) * BLOCK_SIZE == size && CalculateBlockIndexForOffset(size) <= TOTAL_BLOCKS
    ensures !ImageSizeAccepted(1000000)
  {
  }
}
