/** Byte-level layout of the 65-byte HID report (REPORT_BUF under single-byte
    packing): byte 0 is the report id, bytes 1..64 are the MCU_CMD union, whose
    first byte is the command code.  16-bit fields are stored in host
    (little-endian) order after SWAP_UINT16, so they travel big-endian. */
module Framing {
  import opened Config

  type byte = x: int | 0 <= x < 0x100
  type u16 = x: int | 0 <= x < 0x1_0000

  /** SWAP_UINT16 on a 16-bit value: ((x & 0xff00) >> 8) | ((x & 0x00ff) << 8).
      On 16 bits the masked shifts are the high byte moved down and the low
      byte moved up, which is how it is written here; the result's high byte
      is the argument's low byte and its low byte the argument's high byte. */
  function SwapUint16(x: u16): (r: u16)
    ensures r / 0x100 == x % 0x100
    ensures r % 0x100 == x / 0x100
  {
    x / 0x100 + (x % 0x100) * 0x100
  }

  /** Swapping twice gives back the value. */
  lemma SwapInvolutive(x: u16)
    ensures SwapUint16(SwapUint16(x)) == x
  {
  }

  /** One HID report, report id included. */
  type Report = r: seq<byte> | |r| == REPORT_SIZE witness seq(REPORT_SIZE, _ => 0)

  // Byte positions in the report: the MCU_CMD union starts at byte 1.
  const AT_REPORT_ID := 0
  const AT_CMD := 1        // u.cmd
  const AT_FLASH := 2      // erase.flash, rw.flash, setRegs.page, status.currentCmd
  const AT_ADDRESS := 3    // erase.address, rw.address (2 bytes); setRegs.vm, status.page
  const AT_VM := 4         // status.vm
  const AT_NBYTES := 5     // rw.nBytes (2 bytes); status.ret
  const AT_CHECKSUM := 6   // status.checkSum

  /** A report after memset(&reportBuf, 0, sizeof(REPORT_BUF)). */
  function Zeroed(): Report
  {
    seq(REPORT_SIZE, _ => 0)
  }

  /** Stores a 16-bit value in host byte order (low byte first). */
  function StoreU16(r: Report, at: nat, v: u16): Report
    requires at + 2 <= REPORT_SIZE
  {
    r[at := v % 0x100][at + 1 := v / 0x100]
  }

  /** Reads a 16-bit value in host byte order. */
  function LoadU16(r: Report, at: nat): u16
    requires at + 2 <= REPORT_SIZE
  {
    (r[at] as int) + (r[at + 1] as int) * 0x100
  }

  /** Loading a stored field gives the stored value and leaves the other bytes alone. */
  lemma LoadStoreU16(r: Report, at: nat, v: u16)
    requires at + 2 <= REPORT_SIZE
    ensures LoadU16(StoreU16(r, at, v), at) == v
    ensures forall i :: 0 <= i < REPORT_SIZE && i != at && i != at + 1 ==> StoreU16(r, at, v)[i] == r[i]
  {
  }

  /** A command with no fields (CMD_GET_STATUS, CMD_RESET). */
  function CommandReport(cmd: byte): Report
  {
    Zeroed()[AT_CMD := cmd]
  }

  /** The setRegs variant (CMD_SET_PAGE, CMD_SET_VM). */
  function SetRegsReport(cmd: byte, page: byte, vm: byte): Report
  {
    Zeroed()[AT_CMD := cmd][AT_FLASH := page][AT_ADDRESS := vm]
  }

  /** The erase variant as EraseBlock fills it: the block goes in the flash
      field and the address field stays 0. */
  function EraseReport(block: byte): Report
  {
    Zeroed()[AT_CMD := CMD_ERASE][AT_FLASH := block]
  }

  /** The rw variant (CMD_READ, CMD_WRITE) with byte-swapped address and count. */
  function RwReport(cmd: byte, flash: byte, address: u16, nBytes: u16): Report
  {
    StoreU16(StoreU16(Zeroed()[AT_CMD := cmd][AT_FLASH := flash], AT_ADDRESS, SwapUint16(address)),
             AT_NBYTES, SwapUint16(nBytes))
  }

  // Field readers, the device's view of a report.
  function Cmd(r: Report): byte { r[AT_CMD] }
  function Flash(r: Report): byte { r[AT_FLASH] }
  function Address(r: Report): u16 { SwapUint16(LoadU16(r, AT_ADDRESS)) }
  function NBytes(r: Report): u16 { SwapUint16(LoadU16(r, AT_NBYTES)) }

  /** Decoding an rw report gives back its fields, and they travel big-endian. */
  lemma RwReportRoundTrip(cmd: byte, flash: byte, address: u16, nBytes: u16)
    ensures var r := RwReport(cmd, flash, address, nBytes);
      && r[AT_REPORT_ID] == 0 && Cmd(r) == cmd && Flash(r) == flash
      && Address(r) == address && NBytes(r) == nBytes
      && r[AT_ADDRESS] == address / 0x100 && r[AT_ADDRESS + 1] == address % 0x100
      && r[AT_NBYTES] == nBytes / 0x100 && r[AT_NBYTES + 1] == nBytes % 0x100
      && forall i :: AT_NBYTES + 2 <= i < REPORT_SIZE ==> r[i] == 0
  {
    var r0 := Zeroed()[AT_CMD := cmd][AT_FLASH := flash];
    var r1 := StoreU16(r0, AT_ADDRESS, SwapUint16(address));
    LoadStoreU16(r0, AT_ADDRESS, SwapUint16(address));
    LoadStoreU16(r1, AT_NBYTES, SwapUint16(nBytes));
    SwapInvolutive(address);
    SwapInvolutive(nBytes);
  }

  /** An erase report names the block and has address 0. */
  lemma EraseReportFields(block: byte)
    ensures var r := EraseReport(block);
      r[AT_REPORT_ID] == 0 && Cmd(r) == CMD_ERASE && Flash(r) == block && Address(r) == 0
  {
    assert SwapUint16(0) == 0;
  }

  // ---- The status variant, read from the cached statusBuf.

  function GetCurrentCommand(status: Report): byte { status[AT_FLASH] }
  function GetMemoryLayout(status: Report): byte { status[AT_ADDRESS] }
  function GetVMState(status: Report): byte { status[AT_VM] }
  function StatusReturn(status: Report): byte { status[AT_NBYTES] }
  function StatusChecksum(status: Report): byte { status[AT_CHECKSUM] }

  predicate IsValidStatus(status: Report)
  {
    status[AT_REPORT_ID] == 0 && status[AT_CMD] == CMD_GET_STATUS
  }

  predicate IsDeviceReady(status: Report)
  {
    GetCurrentCommand(status) == 0
  }

  /** Bitwise AND of two naturals, one bit at a time from the lowest. */
  function BitAnd(a: nat, b: nat): nat
    decreases a
  {
    if a == 0 || b == 0 then 0
    else 2 * BitAnd(a / 2, b / 2) + (if a % 2 == 1 && b % 2 == 1 then 1 else 0)
  }

  function Pow2(k: nat): nat { if k == 0 then 1 else 2 * Pow2(k - 1) }

  /** a shifted right by k bits. */
  function Shr(a: nat, k: nat): nat { if k == 0 then a else Shr(a / 2, k - 1) }

  /** ANDing with a single bit keeps exactly that bit. */
  lemma {:induction false} BitAndPow2(a: nat, k: nat)
    ensures BitAnd(a, Pow2(k)) == (if Shr(a, k) % 2 == 1 then Pow2(k) else 0)
    decreases k
  {
    if k == 0 {
      assert BitAnd(a / 2, 0) == 0;
    } else if a == 0 {
      ShrZero(k);
    } else {
      var p := Pow2(k - 1);
      Pow2Positive(k - 1);
      assert Pow2(k) == 2 * p && Pow2(k) / 2 == p && Pow2(k) % 2 == 0;
      assert Shr(a, k) == Shr(a / 2, k - 1);
      BitAndPow2(a / 2, k - 1);
    }
  }

  lemma Pow2Positive(k: nat)
    ensures Pow2(k) >= 1
  {
  }

  lemma ShrZero(k: nat)
    ensures Shr(0, k) == 0
  {
  }

  /** (vm & mask) == mask, as the status predicates test it. */
  predicate HasBits(vm: byte, mask: byte)
  {
    BitAnd(vm, mask) == mask
  }

  /** For the three status masks the test reads one bit of vm. */
  lemma HasBitsReadsOneBit(vm: byte)
    ensures HasBits(vm, STATUS_BUS_FREE) <==> vm % 2 == 1
    ensures HasBits(vm, STATUS_BUS_ATTACHED) <==> (vm / 2) % 2 == 1
    ensures HasBits(vm, STATUS_WRITE_PROTECT) <==> vm >= 0x80
  {
    BitAndPow2(vm, 0);
    BitAndPow2(vm, 1);
    BitAndPow2(vm, 7);
    ShrSevenOfByte(vm);
  }

  /** Shifting a byte right by 7 leaves its top bit. */
  lemma ShrSevenOfByte(vm: byte)
    ensures Shr(vm, 7) == vm / 0x80
  {
    var v1 := vm / 2;
    var v2 := v1 / 2;
    var v3 := v2 / 2;
    var v4 := v3 / 2;
    var v5 := v4 / 2;
    var v6 := v5 / 2;
    assert Shr(v6, 1) == v6 / 2;
    assert Shr(v5, 2) == Shr(v6, 1);
    assert Shr(v4, 3) == Shr(v5, 2);
    assert Shr(v3, 4) == Shr(v4, 3);
    assert Shr(v2, 5) == Shr(v3, 4);
    assert Shr(v1, 6) == Shr(v2, 5);
    assert Shr(vm, 7) == Shr(v1, 6);
    assert v6 / 2 == vm / 0x80;
  }

  /** For the three status masks the test is C's 8-bit AND. */
  lemma HasBitsIsByteAnd(vm: byte)
    ensures HasBits(vm, STATUS_BUS_FREE) <==> (vm as bv8) & 0x01 == 0x01
    ensures HasBits(vm, STATUS_BUS_ATTACHED) <==> (vm as bv8) & 0x02 == 0x02
    ensures HasBits(vm, STATUS_WRITE_PROTECT) <==> (vm as bv8) & 0x80 == 0x80
  {
    HasBitsReadsOneBit(vm);
    ByteAndBit(vm);
  }

  lemma ByteAndBit(vm: byte)
    ensures (vm as bv8) & 0x01 == 0x01 <==> vm % 2 == 1
    ensures (vm as bv8) & 0x02 == 0x02 <==> (vm / 2) % 2 == 1
    ensures (vm as bv8) & 0x80 == 0x80 <==> vm >= 0x80
  {
  }

  predicate IsDeviceBusFree(status: Report)
  {
    HasBits(GetVMState(status), STATUS_BUS_FREE)
  }

  predicate IsDeviceBusAttached(status: Report)
  {
    HasBits(GetVMState(status), STATUS_BUS_ATTACHED)
  }

  predicate IsDeviceWriteprotected(status: Report)
  {
    HasBits(GetVMState(status), STATUS_WRITE_PROTECT)
  }

  /** A status reply as the device lays it out. */
  function StatusReply(currentCmd: byte, page: byte, vm: byte, ret: byte, checkSum: byte): Report
  {
    Zeroed()[AT_CMD := CMD_GET_STATUS][AT_FLASH := currentCmd][AT_ADDRESS := page]
            [AT_VM := vm][AT_NBYTES := ret][AT_CHECKSUM := checkSum]
  }

  /** The status readers recover every field of a status reply. */
  lemma StatusReadersRoundTrip(currentCmd: byte, page: byte, vm: byte, ret: byte, checkSum: byte)
    ensures var s := StatusReply(currentCmd, page, vm, ret, checkSum);
      && IsValidStatus(s)
      && GetCurrentCommand(s) == currentCmd && GetMemoryLayout(s) == page
      && GetVMState(s) == vm && StatusReturn(s) == ret && StatusChecksum(s) == checkSum
      && (IsDeviceReady(s) <==> currentCmd == 0)
  {
  }

  /** The VM register value with the three flag bits set as given. */
  function VmFlags(busFree: bool, busAttached: bool, writeProtect: bool): byte
  {
    (if busFree then STATUS_BUS_FREE else 0) + (if busAttached then STATUS_BUS_ATTACHED else 0)
      + (if writeProtect then STATUS_WRITE_PROTECT else 0)
  }

  /** The three predicates test independent bits: every combination of
      answers is produced by some VM value, and in any status report each
      answer is its own bit of the VM byte, so two reports whose VM bytes
      agree on that bit give the same answer. */
  lemma VmPredicatesIndependent(busFree: bool, busAttached: bool, writeProtect: bool, status: Report, other: Report)
    ensures var s := StatusReply(0, 0, VmFlags(busFree, busAttached, writeProtect), 0, 0);
      && IsDeviceBusFree(s) == busFree
      && IsDeviceBusAttached(s) == busAttached
      && IsDeviceWriteprotected(s) == writeProtect
    ensures var v := GetVMState(status);
      && IsDeviceBusFree(status) == (v % 2 == 1)
      && IsDeviceBusAttached(status) == ((v / 2) % 2 == 1)
      && IsDeviceWriteprotected(status) == (v / 0x80 == 1)
    ensures GetVMState(status) % 2 == GetVMState(other) % 2 ==> IsDeviceBusFree(status) == IsDeviceBusFree(other)
    ensures (GetVMState(status) / 2) % 2 == (GetVMState(other) / 2) % 2 ==>
      IsDeviceBusAttached(status) == IsDeviceBusAttached(other)
    ensures GetVMState(status) / 0x80 == GetVMState(other) / 0x80 ==>
      IsDeviceWriteprotected(status) == IsDeviceWriteprotected(other)
  {
    var s := StatusReply(0, 0, VmFlags(busFree, busAttached, writeProtect), 0, 0);
    assert IsDeviceBusFree(s) == busFree && IsDeviceBusAttached(s) == busAttached
        && IsDeviceWriteprotected(s) == writeProtect by {
      var v := VmFlags(busFree, busAttached, writeProtect);
      HasBitsReadsOneBit(v);
      assert s[AT_VM] == v;
      if busFree {
        if busAttached {
          if writeProtect { assert v == 0x83; } else { assert v == 0x03; }
        } else {
          if writeProtect { assert v == 0x81; } else { assert v == 0x01; }
        }
      } else {
        if busAttached {
          if writeProtect { assert v == 0x82; } else { assert v == 0x02; }
        } else {
          if writeProtect { assert v == 0x80; } else { assert v == 0x00; }
        }
      }
    }
    HasBitsReadsOneBit(GetVMState(status));
    HasBitsReadsOneBit(GetVMState(other));
  }
}
