/** Static configuration of the X-Bit modchip (xbit.h): command codes, report
    sizes, status bit masks, flash geometry, the bank layout table and the
    DIP-switch table.  Everything here is read-only data. */
module Config {

  // Command codes carried in the first byte of every command report.
  const CMD_RESET := 0x01
  const CMD_ERASE := 0x02
  const CMD_WRITE := 0x03
  const CMD_READ := 0x04
  const CMD_GET_STATUS := 0x05
  const CMD_SET_REGS := 0x06
  const CMD_SET_PAGE := 0x07
  const CMD_SET_VM := 0x08

  // Report sizes: a command is 64 bytes; the HID report adds a report-id byte.
  const OUTPUT_REPORT_SIZE := 64
  const FEATURE_REPORT_SIZE := OUTPUT_REPORT_SIZE
  const CMD_SIZE := OUTPUT_REPORT_SIZE
  /** sizeof(REPORT_BUF) under single-byte packing: report id + MCU_CMD union. */
  const REPORT_SIZE := 1 + CMD_SIZE

  // Bits of the VM register.
  const STATUS_BUS_FREE := 0x01
  const STATUS_BUS_ATTACHED := 0x02
  const STATUS_WRITE_PROTECT := 0x80

  // Flash geometry.
  const TOTAL_BLOCKS := 0x20
  const BLOCK_SIZE := 0x10000
  /** Half a block: the unit of one ReadFlash/WriteFlash call in the bank operations. */
  const MAX_SECTOR_SIZE := 0x8000

  const BANK_LAYOUT_COUNT := 6
  const BANKS_MAX := 6

  /** Bank sizes in KiB; row l-1 is layout l, column b-1 is bank b; 0 = unused. */
  const BANK_LAYOUT: seq<seq<int>> := [
    [512,  512,  256, 256, 256, 256],
    [1024, 256,  256, 256, 256, 0],
    [1024, 512,  256, 256, 0,   0],
    [1024, 512,  512, 0,   0,   0],
    [1024, 1024, 0,   0,   0,   0],
    [2048, 0,    0,   0,   0,   0]
  ]

  /** DIP-switch setting (switches 1..3 as bits 0..2) that selects BIOS bank i. */
  const BIOS_SELECT_SWITCHES: seq<int> := [0x00, 0x01, 0x02, 0x03, 0x04, 0x05]

  /** Sum of a row of sizes. */
  function SumKb(sizes: seq<int>): int
  {
    if sizes == [] then 0 else SumKb(sizes[..|sizes| - 1]) + sizes[|sizes| - 1]
  }

  /** The table has BANK_LAYOUT_COUNT rows of BANKS_MAX entries. */
  lemma TableShape()
    ensures |BANK_LAYOUT| == BANK_LAYOUT_COUNT
    ensures forall l :: 0 <= l < |BANK_LAYOUT| ==> |BANK_LAYOUT[l]| == BANKS_MAX
    ensures |BIOS_SELECT_SWITCHES| == BANKS_MAX
  {
  }

  /** Every layout partitions the whole 2 MiB flash: its sizes add up to 2048 KiB. */
  lemma LayoutsFillFlash(l: int)
    requires 0 <= l < BANK_LAYOUT_COUNT
    ensures SumKb(BANK_LAYOUT[l]) * 1024 == TOTAL_BLOCKS * BLOCK_SIZE
  {
    SumKbOfSix(BANK_LAYOUT[l]);
  }

  /** A row of six sizes sums entry by entry. */
  lemma SumKbOfSix(s: seq<int>)
    requires |s| == 6
    ensures SumKb(s) == s[0] + s[1] + s[2] + s[3] + s[4] + s[5]
  {
    assert s[..5][..4] == s[..4] && s[..4][..3] == s[..3] && s[..3][..2] == s[..2];
    assert s[..2][..1] == s[..1] && s[..1][..0] == [];
    assert SumKb(s[..1]) == s[0];
    assert SumKb(s[..2]) == s[0] + s[1];
    assert SumKb(s[..3]) == s[0] + s[1] + s[2];
    assert SumKb(s[..4]) == s[0] + s[1] + s[2] + s[3];
    assert SumKb(s[..5]) == s[0] + s[1] + s[2] + s[3] + s[4];
    assert s[..6] == s;
  }

  /** Every used bank is a whole number of 64 KiB blocks. */
  lemma BankSizesBlockAligned(l: int, b: int)
    requires 0 <= l < BANK_LAYOUT_COUNT && 0 <= b < BANKS_MAX
    ensures BANK_LAYOUT[l][b] >= 0
    ensures (BANK_LAYOUT[l][b] * 1024) % BLOCK_SIZE == 0
  {
  }

  /** Unused banks only trail: once a bank of a layout is 0, all later ones are 0. */
  lemma ZerosOnlyTrail(l: int, b: int, b': int)
    requires 0 <= l < BANK_LAYOUT_COUNT && 0 <= b <= b' < BANKS_MAX
    requires BANK_LAYOUT[l][b] == 0
    ensures BANK_LAYOUT[l][b'] == 0
  {
  }

  /** The first bank of every layout is in use. */
  lemma FirstBankUsed(l: int)
    requires 0 <= l < BANK_LAYOUT_COUNT
    ensures BANK_LAYOUT[l][0] > 0
  {
  }

  /** Flash is 2 MiB, and one report carries CMD_SIZE - 1 = 63 payload bytes. */
  lemma GeometryConstants()
    ensures TOTAL_BLOCKS * BLOCK_SIZE == 2 * 1024 * 1024
    ensures CMD_SIZE == OUTPUT_REPORT_SIZE == FEATURE_REPORT_SIZE == 64
    ensures CMD_SIZE - 1 == 63 && REPORT_SIZE == 65
    ensures BLOCK_SIZE == 2 * MAX_SECTOR_SIZE
  {
  }

  /** The three status masks are distinct single bits of a byte. */
  lemma StatusMasksAreSingleBits()
    ensures STATUS_BUS_FREE == 1 && STATUS_BUS_ATTACHED == 2 && STATUS_WRITE_PROTECT == 128
    ensures (STATUS_BUS_FREE as bv8) & (STATUS_BUS_ATTACHED as bv8) == 0
    ensures (STATUS_BUS_FREE as bv8) & (STATUS_WRITE_PROTECT as bv8) == 0
    ensures (STATUS_BUS_ATTACHED as bv8) & (STATUS_WRITE_PROTECT as bv8) == 0
  {
  }

  /** The command codes are pairwise distinct and lie in 0x01..0x08. */
  lemma CommandCodesDistinct()
    ensures var codes := [CMD_RESET, CMD_ERASE, CMD_WRITE, CMD_READ, CMD_GET_STATUS,
                          CMD_SET_REGS, CMD_SET_PAGE, CMD_SET_VM];
            (forall i, j :: 0 <= i < j < |codes| ==> codes[i] != codes[j]) &&
            (forall i :: 0 <= i < |codes| ==> 0x01 <= codes[i] <= 0x08)
  {
  }

  /** Bank i is selected by switch pattern i, which fits the three DIP switches. */
  lemma SwitchesSelectBank(i: int)
    requires 0 <= i < BANKS_MAX
    ensures BIOS_SELECT_SWITCHES[i] == i
    ensures 0 <= BIOS_SELECT_SWITCHES[i] < 8
  {
  }
}
