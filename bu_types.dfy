/**
 * Shared vocabulary of the memory-card ("bu") device driver: the in-memory
 * directory entry, the allocation codes, the error numbers, the results of
 * the hardware calls the driver makes, and the deviceId -> port mapping.
 */
module BuTypes {

  /** Number of allocation units (directory slots) on one card. */
  const SLOTS: nat := 15
  /** Number of "broken block" markers kept per port. */
  const BROKEN_SLOTS: nat := 20
  /** Capacity of the name field of a directory entry. */
  const NAME_MAX: nat := 20
  /** Number of physical card ports. */
  const PORTS: nat := 2

  /** The code the free-back loop writes; any code with high nibble 0xa counts as free. */
  const FREE: bv8 := 0xa0
  /** The codes the create path writes on the first, the middle and the last block of a file. */
  const FIRST_BLOCK: bv8 := 0x51
  const MIDDLE_BLOCK: bv8 := 0x52
  const LAST_BLOCK: bv8 := 0x53
  /**
   * The first-block code a lookup accepts while the device status is
   * non-zero. Its high nibble is 0xa, so the free test counts such a slot
   * as free and a create may link it into a new file.
   */
  const FIRST_NONZERO_STATUS: bv8 := 0xa1

  /** The byte length of `blocks` 8 KiB allocation units: the count shifted left by 13. */
  function BlockBytes(blocks: nat): (bytes: nat)
    ensures bytes % 0x2000 == 0 && bytes / 0x2000 == blocks
  {
    blocks * 0x2000
  }

  /** A slot is free when the high nibble of its code is 0xa (a mask test, not equality). */
  predicate IsFree(code: bv8) {
    code & 0xf0 == 0xa0
  }

  /**
   * One directory slot as the driver keeps it in memory. `name` holds the
   * characters of the name before its terminator; `nextBlock` is the index
   * of the next slot of the file, -1 on the last one.
   */
  datatype Entry = Entry(allocState: bv8, fileSize: int, name: seq<char>, nextBlock: int)

  /** An entry after it has been cleared byte by byte. */
  const ZERO_ENTRY: Entry := Entry(0, 0, [], 0)

  /** The error numbers the driver stores in a file handle. */
  datatype Errno = ENOERR | ENOENT | EBUSY | ENOSPC

  /**
   * How a driver entry point ends: it returns a value, it never returns
   * (an endless loop), or it reads or writes outside a table.
   */
  datatype Outcome = Return(value: int) | Hang | OutOfBounds

  datatype Option<T> = None | Some(value: T)

  /** The fields of a file handle that the driver sets. */
  datatype Handle = Handle(errno: Errno, lba: int, offset: int, length: int)

  /** The record that the enumeration entry points fill in for the caller. */
  datatype DirInfo = DirInfo(attributes: bv8, lba: int, size: int, name: seq<char>)

  /**
   * What the hardware and lower layers answer during one driver call:
   * the sector read succeeds or not and leaves `sector` in the port's
   * buffer; the status wait answers `waitStatus`; the low-level init,
   * the format and the successive directory writes answer as given.
   */
  datatype Hardware = Hardware(
    readOk: bool,
    sector: seq<char>,
    waitStatus: int,
    initResult: int,
    formatResult: int,
    tocResults: seq<bool>)

  /** The answer of the k-th directory write of one call; a write past the supplied answers fails. */
  predicate TocOk(hw: Hardware, k: nat) {
    k < |hw.tocResults| && hw.tocResults[k]
  }

  /** A formatted card starts with the two bytes 'M', 'C'. */
  predicate HasMagic(sector: seq<char>) {
    |sector| >= 2 && sector[0] == 'M' && sector[1] == 'C'
  }

  const NUL: char := 0 as char

  /** The characters of a NUL-terminated buffer before its first NUL (all of it if there is none). */
  function CStr(buf: seq<char>): (s: seq<char>)
    ensures |s| <= |buf| && s == buf[..|s|]
    ensures NUL !in s
    ensures |s| < |buf| ==> buf[|s|] == NUL
  {
    if buf == [] || buf[0] == NUL then [] else [buf[0]] + CStr(buf[1..])
  }

  /** The string a bounded copy into an n-byte field leaves there. */
  function StrNCopy(s: seq<char>, n: nat): (r: seq<char>)
    ensures |r| <= n && |r| <= |s| && r == s[..|r|]
    ensures |s| <= n ==> r == s
  {
    if |s| <= n then s else s[..n]
  }

  /**
   * The port a device id names: the id plus 15 when negative, shifted
   * right by four (an arithmetic shift, i.e. a floor division by 16).
   */
  function Port(deviceId: int): (p: int)
    ensures deviceId >= 0 ==> 16 * p <= deviceId < 16 * p + 16
    ensures deviceId < 0 ==> 16 * p - 16 < deviceId <= 16 * p
  {
    (if deviceId >= 0 then deviceId else deviceId + 15) / 16
  }

  /** The device id names one of the two ports. */
  predicate CardPort(deviceId: int) {
    0 <= Port(deviceId) < PORTS
  }

  /** The biased shift is C's division by 16, which truncates toward zero. */
  lemma PortTruncates(deviceId: int)
    ensures Port(deviceId) == if deviceId >= 0 then deviceId / 16 else -((-deviceId) / 16)
  {
    if deviceId < 0 {
      var m := -deviceId;
      var q := m / 16;
      var r := m % 16;
      assert m == 16 * q + r && 0 <= r < 16;
      if r == 0 {
        assert deviceId + 15 == 16 * (-q) + 15;
      } else {
        assert deviceId + 15 == 16 * (-q) + (15 - r);
      }
    }
  }

  /** Ids 0x00-0x0f name port 0 and 0x10-0x1f port 1; no id outside -15..31 names a port. */
  lemma PortRange(deviceId: int)
    ensures CardPort(deviceId) <==> -15 <= deviceId < 32
    ensures 0 <= deviceId < 16 ==> Port(deviceId) == 0
    ensures 16 <= deviceId < 32 ==> Port(deviceId) == 1
  {
  }
}
