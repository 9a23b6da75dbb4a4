/**
 * The memory-card device driver: its global state (the per-port
 * directory tables, broken-block markers, sector buffers and
 * pending-operation flags, plus the single find pattern and cursor
 * shared by all ports) and its entry points open, close, find-first,
 * find-next and format.
 */
module Device {
  import opened BuTypes
  import opened PatternMatch
  import opened Directory
  import opened FindPattern
  import opened CreatePath

  /** Open-mode flags the driver tests. */
  const PSXF_CREAT: bv32 := 0x200
  const PSXF_ASYNC: bv32 := 0x8000

  /** The number of blocks a create asks for: bits 16 to 31 of the mode. */
  function RequestedBlocks(mode: bv32): (n: nat)
    ensures n < 0x1_0000 && BlockBytes(n) < 0x8000_0000
  {
    ((mode >> 16) & 0xffff) as int
  }

  /**
   * The block count worked out again from a byte length: the length
   * shifted right by 13, plus one when any of its low 13 bits is set
   * (a shift and a mask, so floor division and remainder).
   */
  method BlocksForLength(length: int) returns (blocks: int)
    ensures blocks * 0x2000 - 0x2000 < length <= blocks * 0x2000
  {
    blocks := length / 0x2000;
    if length % 0x2000 != 0 {
      blocks := blocks + 1;
    }
  }

  /** Worked out again from the byte length of n blocks, the count is n. */
  lemma CeilingOfBlockBytes(blocks: int, n: nat)
    requires blocks * 0x2000 - 0x2000 < BlockBytes(n) <= blocks * 0x2000
    ensures blocks == n
  {
  }

  /** A caller-owned file handle. */
  class File {
    /** The device the handle was opened on; the driver never changes it. */
    const deviceId: int
    var errno: Errno
    var lba: int
    var offset: int
    var length: int

    constructor (deviceId: int)
      ensures this.deviceId == deviceId
      ensures View() == Handle(ENOERR, 0, 0, 0)
    {
      this.deviceId := deviceId;
      errno, lba, offset, length := ENOERR, 0, 0, 0;
    }

    function View(): (h: Handle)
      reads this
    {
      Handle(errno, lba, offset, length)
    }
  }

  /** What card initialisation answers, given the hardware's answers and the auto-format setting. */
  function InitResult(hw: Hardware, autoFormat: bool): (r: int)
    ensures r != 0 ==> hw.readOk
    ensures hw.readOk && hw.waitStatus == 0 && HasMagic(hw.sector) ==> r == 1
    ensures hw.waitStatus != 0 && hw.waitStatus != 3 ==> r == 0
    ensures hw.waitStatus == 0 && !HasMagic(hw.sector) && !autoFormat ==> r == 0
    ensures hw.readOk && hw.waitStatus == 3 ==> r == hw.initResult
    ensures hw.readOk && hw.waitStatus == 0 && !HasMagic(hw.sector) && autoFormat ==> r == hw.formatResult
  {
    if !hw.readOk then 0
    else if hw.waitStatus != 0 then (if hw.waitStatus != 3 then 0 else hw.initResult)
    else if HasMagic(hw.sector) then 1
    else if autoFormat then hw.formatResult
    else 0
  }

  /** What open leaves: the port's table, outcome and handle, then the find cursor and the device status. */
  datatype Opened = Opened(created: Created, cursor: int, status: int)

  /**
   * open on a port whose table is d, from the handle h0, the find cursor
   * and the device status it starts with. The handle's errno is set to
   * busy first. A port with an operation in flight, or (unless the mode
   * asks for asynchronous access) a card that does not initialise, gives
   * 1 and busy; a failed sector read has cleared the table. Otherwise the
   * status becomes 0 and a visible file of the same name becomes the
   * cursor; with the create flag the create path follows, and without it
   * that file is opened (offset 0, its size) or ENOENT is reported.
   */
  function OpenResult(d: seq<Entry>, path: seq<char>, mode: bv32, hw: Hardware, autoFormat: bool, busy: bool,
                      h0: Handle, cursor: int, status: int): (o: Opened)
    requires |d| == SLOTS
    ensures |o.created.table| == SLOTS
    ensures busy ==> o == Opened(Created(d, Return(1), h0.(errno := EBUSY)), cursor, status)
    ensures (mode & PSXF_CREAT) != PSXF_CREAT ==> o.created.table == d || o.created.table == ClearedRow()
    ensures !busy && (mode & PSXF_ASYNC) != PSXF_ASYNC && InitResult(hw, autoFormat) == 0 ==>
              o.created.out == Return(1) && o.created.handle.errno == EBUSY && o.cursor == cursor
              && o.created.table == (if hw.readOk then d else ClearedRow())
    ensures !busy && ((mode & PSXF_ASYNC) == PSXF_ASYNC || InitResult(hw, autoFormat) != 0) ==>
              o == OpenReady(d, path, mode, hw, h0.(errno := EBUSY), cursor)
    ensures o.created.out == Return(0) ==>
              o.status == 0 && o.created.handle.errno == ENOERR && o.created.handle.offset == 0
              && 0 <= o.created.handle.lba < SLOTS
              && o.created.table[o.created.handle.lba].fileSize == o.created.handle.length
  {
    var h := h0.(errno := EBUSY);
    if busy then
      Opened(Created(d, Return(1), h), cursor, status)
    else if (mode & PSXF_ASYNC) != PSXF_ASYNC && InitResult(hw, autoFormat) == 0 then
      Opened(Created(if hw.readOk then d else ClearedRow(), Return(1), h), cursor, status)
    else
      OpenReady(d, path, mode, hw, h, cursor)
  }

  /**
   * open once the card is ready: the status becomes 0 and a visible file
   * of the same name becomes the find cursor; with the create flag the
   * create path follows, and without it that file is opened (offset 0,
   * its size) or ENOENT is reported.
   */
  function OpenReady(d: seq<Entry>, path: seq<char>, mode: bv32, hw: Hardware, h: Handle, cursor: int): (o: Opened)
    ensures o.status == 0 && |o.created.table| == |d|
    ensures (mode & PSXF_CREAT) != PSXF_CREAT ==> o.created.table == d
    ensures o.created.out == Return(0) ==>
              o.created.handle.errno == ENOERR && o.created.handle.offset == 0
              && 0 <= o.created.handle.lba < |d|
              && o.created.table[o.created.handle.lba].fileSize == o.created.handle.length
    ensures o.created.out == Return(0) && (mode & PSXF_CREAT) != PSXF_CREAT ==>
              Hit(d[o.created.handle.lba], 0, path) && o.cursor == o.created.handle.lba
    ensures (mode & PSXF_CREAT) == PSXF_CREAT ==> o.created == CreateResult(d, path, RequestedBlocks(mode), hw, h)
    ensures (mode & PSXF_CREAT) != PSXF_CREAT ==>
              (o.created.out == Return(0) <==> Lookup(d, 0, 0, path) != -1)
              && (o.created.out == Return(0) ==> o.created.handle.lba == Lookup(d, 0, 0, path))
              && (o.created.out != Return(0) ==>
                    o.created.out == Return(1) && o.created.handle.errno == ENOENT && o.cursor == cursor)
  {
    var found := Lookup(d, 0, 0, path);
    var next := if found == -1 then cursor else found;
    if (mode & PSXF_CREAT) == PSXF_CREAT then
      Opened(CreateResult(d, path, RequestedBlocks(mode), hw, h), next, 0)
    else if found == -1 then
      Opened(Created(d, Return(1), h.(errno := ENOENT)), next, 0)
    else
      Opened(Created(d, Return(0), Handle(ENOERR, found, 0, d[found].fileSize)), next, 0)
  }

  /** What find-first / find-next report for slot i: its code's high nibble, its address, size and name. */
  function Info(e: Entry, i: int): (info: DirInfo)
    ensures info.attributes & 0x0f == 0 && info.lba % 0x40 == 0 && info.lba / 0x40 == i + 1
    ensures info.attributes == e.allocState & 0xf0 && info.size == e.fileSize && info.name == e.name
  {
    DirInfo(e.allocState & 0xf0, (i + 1) * 0x40, e.fileSize, e.name)
  }

  /** What find-next leaves: the entry it reports, the handle's errno and the find cursor. */
  datatype Found = Found(res: Option<DirInfo>, errno: Errno, cursor: int)

  /**
   * find-next on a port whose table is d: busy while the port has an
   * operation in flight; otherwise the first hit after the cursor, with
   * the status and pattern given, is reported and becomes the cursor, and
   * ENOENT leaves the cursor alone.
   */
  function FindNext(d: seq<Entry>, busy: bool, status: int, cursor: int, pattern: seq<char>): (f: Found)
    requires -1 <= cursor
    ensures f.res != None <==> f.errno == ENOERR
    ensures f.res == None ==> f.cursor == cursor && (busy <==> f.errno == EBUSY)
    ensures f.res != None ==>
              !busy && cursor < f.cursor < |d| && Hit(d[f.cursor], status, pattern)
              && f.res.value == Info(d[f.cursor], f.cursor)
              && forall j :: cursor < j < f.cursor ==> !Hit(d[j], status, pattern)
  {
    if busy then Found(None, EBUSY, cursor)
    else
      var r := Lookup(d, status, cursor + 1, pattern);
      if r == -1 then Found(None, ENOENT, cursor) else Found(Some(Info(d[r], r)), ENOERR, r)
  }

  /**
   * One find-next call is one step of Enumerate: with nothing in flight it
   * reports the head of the enumeration from the cursor (ENOENT exactly
   * when that is empty), and the enumeration from the new cursor is the
   * rest; so find-first then find-next until ENOENT yields every hit once,
   * in slot order (EnumerateIsHits).
   */
  lemma FindNextSteps(d: seq<Entry>, status: int, cursor: int, pattern: seq<char>)
    requires -1 <= cursor
    ensures var f := FindNext(d, false, status, cursor, pattern);
            var e := Enumerate(d, status, pattern, cursor);
            (f.res == None <==> e == [])
            && (f.res == None ==> f.errno == ENOENT && f.cursor == cursor)
            && (f.res != None ==>
                  f.errno == ENOERR && cursor < f.cursor < |d|
                  && f.res.value == Info(d[f.cursor], f.cursor)
                  && Hit(d[f.cursor], status, pattern)
                  && e == [f.cursor] + Enumerate(d, status, pattern, f.cursor))
  {
  }

  /** The sector buffers after initialising the card on port p: a good read leaves the sector in p's buffer. */
  function InitBuffers(buffers: seq<seq<char>>, p: int, hw: Hardware): (r: seq<seq<char>>)
    requires 0 <= p < |buffers|
    ensures |r| == |buffers| && forall q :: 0 <= q < |buffers| && q != p ==> r[q] == buffers[q]
    ensures hw.readOk ==> r[p] == hw.sector
  {
    if hw.readOk then buffers[p := hw.sector] else buffers
  }

  /** A port's broken-block markers after initialising its card: a failed read sets all 20 to -1. */
  function InitBroken(marks: seq<int>, hw: Hardware): (r: seq<int>)
    ensures hw.readOk ==> r == marks
    ensures !hw.readOk ==> |r| == BROKEN_SLOTS && forall i :: 0 <= i < BROKEN_SLOTS ==> r[i] == -1
  {
    if hw.readOk then marks else seq(BROKEN_SLOTS, _ => -1)
  }

  /** A port's directory table after it has been cleared. */
  function ClearedRow(): (r: seq<Entry>)
    ensures |r| == SLOTS && forall i :: 0 <= i < SLOTS ==> r[i] == ZERO_ENTRY
  {
    seq(SLOTS, _ => ZERO_ENTRY)
  }

  /** The driver's global state. */
  class BuDriver {
    /** The in-memory directory tables of port 0 and port 1, the two rows of the 2 x 15 table. */
    const dir0: array<Entry>
    const dir1: array<Entry>
    /** The broken-block markers of port 0 and port 1, the two rows of the 2 x 20 table. */
    const broken0: array<int>
    const broken1: array<int>
    /** The last directory sector read from each port. */
    const buffers: array<seq<char>>
    /** Non-zero while the card layer has an operation in flight on the port. */
    const operation: array<int>
    /** Whether an unformatted card is formatted on first use. */
    var autoFormat: bool
    /** The kernel's device status flag, which decides lookup visibility. */
    var deviceStatus: int
    /** The compiled find pattern, shared by all ports. */
    const findPattern: array<char>
    /** The slot find-next continues after, shared by all ports. */
    var nextFileIndex: int

    ghost predicate Valid()
      reads this`nextFileIndex
    {
      dir0.Length == SLOTS && dir1.Length == SLOTS && dir0 != dir1
      && broken0.Length == BROKEN_SLOTS && broken1.Length == BROKEN_SLOTS && broken0 != broken1
      && buffers.Length == PORTS && operation.Length == PORTS
      && findPattern.Length == PATTERN_SIZE
      && -1 <= nextFileIndex < SLOTS
    }

    /** Port p's row of the directory table. */
    function Dir(p: int): (a: array<Entry>) {
      if p == 0 then dir0 else dir1
    }

    /** Port p's row of the broken-block markers. */
    function Broken(p: int): (a: array<int>) {
      if p == 0 then broken0 else broken1
    }

    /** The directory table of port p as a sequence. */
    function Row(p: int): (r: seq<Entry>)
      reads Dir(p)
      ensures |r| == Dir(p).Length
    {
      Dir(p)[..]
    }

    /** Zero-initialised state, as the globals are at start-up. */
    constructor (autoFormat: bool)
      ensures Valid() && this.autoFormat == autoFormat
      ensures Row(0) == ClearedRow() && Row(1) == ClearedRow()
      ensures operation[..] == [0, 0] && deviceStatus == 0 && nextFileIndex == 0
    {
      dir0 := new Entry[SLOTS](_ => ZERO_ENTRY);
      dir1 := new Entry[SLOTS](_ => ZERO_ENTRY);
      broken0 := new int[BROKEN_SLOTS](_ => 0);
      broken1 := new int[BROKEN_SLOTS](_ => 0);
      buffers := new seq<char>[PORTS](_ => []);
      operation := new int[PORTS](_ => 0);
      findPattern := new char[PATTERN_SIZE](_ => NUL);
      this.autoFormat := autoFormat;
      deviceStatus := 0;
      nextFileIndex := 0;
    }

    /**
     * The lookup: scans slots start..14 of the device's port for the first
     * hit and records it in the find cursor; -1 when there is none.
     */
    method NextFileInternal(deviceId: int, start: nat, pattern: seq<char>) returns (r: int)
      requires Valid() && CardPort(deviceId)
      modifies this`nextFileIndex
      ensures Valid()
      ensures r == Lookup(Row(Port(deviceId)), deviceStatus, start, pattern)
      ensures nextFileIndex == if r == -1 then old(nextFileIndex) else r
    {
      var port := Port(deviceId);
      var buEntries := Dir(port);
      var index := start;
      while index < SLOTS
        invariant start <= index
        invariant Lookup(Row(port), deviceStatus, start, pattern) == Lookup(Row(port), deviceStatus, index, pattern)
        decreases SLOTS - index
      {
        var entry := buEntries[index];
        var visible := if deviceStatus == 0 then entry.allocState == FIRST_BLOCK
                       else entry.allocState == FIRST_NONZERO_STATUS;
        if visible && |entry.name| != 0 && Match(entry.name, pattern) {
          nextFileIndex := index;
          return index;
        }
        index := index + 1;
      }
      return -1;
    }

    /**
     * Card initialisation. A failed sector read clears the port's table and
     * sets its broken markers to -1, and fails. Otherwise the sector is in
     * the port's buffer and the answer follows InitResult.
     */
    method DevInit(deviceId: int, hw: Hardware) returns (r: int)
      requires Valid() && CardPort(deviceId)
      modifies Dir(Port(deviceId)), Broken(Port(deviceId)), buffers
      ensures r == InitResult(hw, autoFormat)
      ensures var p := Port(deviceId);
              Row(1 - p) == old(Row(1 - p)) && Broken(1 - p)[..] == old(Broken(1 - p)[..])
              && if hw.readOk then
                   buffers[..] == old(buffers[..])[p := hw.sector]
                   && Row(p) == old(Row(p)) && Broken(p)[..] == old(Broken(p)[..])
                 else
                   buffers[..] == old(buffers[..])
                   && Row(p) == ClearedRow() && Broken(p)[..] == seq(BROKEN_SLOTS, _ => -1)
    {
      var port := Port(deviceId);
      if !hw.readOk {
        var buEntries := Dir(port);
        for i := 0 to SLOTS
          modifies buEntries
          invariant forall j :: 0 <= j < i ==> buEntries[j] == ZERO_ENTRY
        {
          buEntries[i] := ZERO_ENTRY;
        }
        var marks := Broken(port);
        for i := 0 to BROKEN_SLOTS
          modifies marks
          invariant forall j :: 0 <= j < i ==> marks[j] == -1
        {
          marks[i] := -1;
        }
        return 0;
      }
      buffers[port] := hw.sector;
      var status := hw.waitStatus;
      if status != 0 {
        if status != 3 {
          return 0;
        }
        return hw.initResult;
      }
      if HasMagic(buffers[port]) {
        return 1;
      }
      if autoFormat {
        return hw.formatResult;
      }
      return 0;
    }

    /** Clears the bitmap and counts the free slots of the port. */
    method CountFree(port: int, bitmap: array<int>) returns (available: nat)
      requires Valid() && 0 <= port < PORTS && bitmap.Length == SLOTS
      modifies bitmap
      ensures forall i :: 0 <= i < SLOTS ==> bitmap[i] == 0
      ensures available == |FreeIndices(Row(port))|
    {
      ghost var d := Row(port);
      available := 0;
      for i := 0 to SLOTS
        invariant forall j :: 0 <= j < i ==> bitmap[j] == 0
        invariant available == Rank(d, i)
      {
        bitmap[i] := 0;
        FreeIndicesSnoc(d, i);
        if IsFree(Dir(port)[i].allocState) {
          available := available + 1;
        }
      }
      RankFull(d);
    }

    /**
     * Links the free slot `index`, the one of rank c: the first slot of a
     * file takes 0x51, the size and the name; a later one takes 0x52 and
     * the previous slot points at it. When `close` is set the chain ends
     * here: no next block, and 0x53 unless it is also the first.
     */
    method LinkSlot(port: int, index: int, prevIndex: int, blockCount: nat, close: bool,
                    size: int, name: seq<char>, bitmap: array<int>, ghost d: seq<Entry>, ghost c: nat, ghost n: nat)
      requires Valid() && 0 <= port < PORTS && 0 <= index < SLOTS && bitmap.Length == SLOTS && |d| == SLOTS
      requires IsFree(d[index].allocState) && Rank(d, index) == c
      requires Row(port) == Chained(d, c, n, size, name) && bitmap[..] == Bitmap(d, c)
      requires blockCount == 0 <==> c == 0
      requires c <= |FreeIndices(d)| && (c > 0 ==> prevIndex == FreeIndices(d)[c - 1])
      requires close <==> c + 1 >= n
      modifies Dir(port), bitmap
      ensures Row(port) == Chained(d, c + 1, n, size, name) && bitmap[..] == Bitmap(d, c + 1)
      ensures c < |FreeIndices(d)| && FreeIndices(d)[c] == index
    {
      ChainedNext(d, c, n, size, name, index);
      var buEntries := Dir(port);
      var e := buEntries[index];
      if blockCount == 0 {
        e := e.(allocState := FIRST_BLOCK, fileSize := size, name := name);
        bitmap[index] := FIRST_BLOCK as int;
      } else {
        buEntries[prevIndex] := buEntries[prevIndex].(nextBlock := index);
        e := e.(allocState := MIDDLE_BLOCK);
        if bitmap[index] != FIRST_BLOCK as int {
          bitmap[index] := MIDDLE_BLOCK as int;
        }
      }
      if close {
        e := e.(nextBlock := -1);
        if blockCount + 1 > 1 {
          e := e.(allocState := LAST_BLOCK);
        }
      }
      buEntries[index] := e;
    }

    /**
     * The allocation loop of the create path, with the firmware's commit
     * loop as it is: free slots are linked in index order until
     * max(futureBlockCount, 1) are, and the directory is written. Then a
     * failed write stops the loop; a first block other than slot 0 sends
     * the free-back loop round forever (`hang`), after its first pass
     * has freed that block again; and a first block at slot 0 lets the
     * loop go on linking every later free slot. `linked` is how many free
     * slots end up linked and `commits` the bitmaps written.
     */
    method Allocate(file: File, port: int, path: seq<char>, futureBlockCount: nat, bitmap: array<int>, hw: Hardware)
      returns (firstIndex: int, hang: bool, ghost linked: nat, ghost commits: seq<seq<int>>)
      requires Valid() && 0 <= port < PORTS
      requires bitmap.Length == SLOTS && forall i :: 0 <= i < SLOTS ==> bitmap[i] == 0
      requires futureBlockCount <= |FreeIndices(Row(port))|
      requires file.length == BlockBytes(futureBlockCount)
      modifies Dir(port), bitmap, file`errno
      ensures AllocExit(old(Row(port)), hw, futureBlockCount, linked, firstIndex, hang, commits)
      ensures var chained := Chained(old(Row(port)), linked, ChainLength(futureBlockCount),
                                     BlockBytes(futureBlockCount), StrNCopy(path, NAME_MAX));
              Row(port) == if hang then chained[firstIndex := FreedBack(chained[firstIndex])] else chained
      ensures hang ==> file.errno == old(file.errno)
    {
      ghost var d := Row(port);
      ghost var n := ChainLength(futureBlockCount);
      ghost var size := BlockBytes(futureBlockCount);
      ghost var name := StrNCopy(path, NAME_MAX);
      linked := 0;
      commits := [];
      hang := false;
      firstIndex := -1;
      var blockCount := 0;
      var prevIndex := 0;
      var tocCalls := 0;
      var length := file.length;
      ProgressStart(d, hw, futureBlockCount);
      assert Row(port) == Chained(d, 0, n, size, name);
      assert bitmap[..] == Bitmap(d, 0);
      for index := 0 to SLOTS
        invariant Progress(d, hw, futureBlockCount, index, linked, blockCount, prevIndex, firstIndex, tocCalls, commits)
        invariant Row(port) == Chained(d, linked, n, size, name)
        invariant bitmap[..] == Bitmap(d, linked)
        invariant file.errno == old(file.errno) || firstIndex == 0
        invariant !hang
      {
        ChainedFrame(d, linked, n, size, name, index);
        if IsFree(Dir(port)[index].allocState) {
          var stop;
          blockCount, prevIndex, firstIndex, tocCalls, stop, hang, linked, commits :=
            VisitFree(file, port, path, futureBlockCount, bitmap, hw, length, index,
                      blockCount, prevIndex, firstIndex, tocCalls, d, linked, commits, old(file.errno));
          if stop {
            return;
          }
        } else {
          ProgressSkip(d, hw, futureBlockCount, index, linked, blockCount, prevIndex, firstIndex, tocCalls, commits);
        }
      }
      ProgressDone(d, hw, futureBlockCount, linked, blockCount, prevIndex, firstIndex, tocCalls, commits);
    }

    /**
     * One pass of the allocation loop on a free slot: link it, and when
     * the chain closes, write the directory and run the commit loop's
     * test. `stop` is set when the loop is left: after a failed write, or
     * on the endless free-back (`hang`). Otherwise the counters are those
     * before the next slot.
     */
    method VisitFree(file: File, port: int, path: seq<char>, futureBlockCount: nat, bitmap: array<int>, hw: Hardware,
                     length: int, index: int, blockCount: int, prevIndex: int, firstIndex: int, tocCalls: int,
                     ghost d: seq<Entry>, ghost linked: nat, ghost commits: seq<seq<int>>, ghost errno0: Errno)
      returns (blockCount': int, prevIndex': int, firstIndex': int, tocCalls': int, stop: bool, hang: bool,
               ghost linked': nat, ghost commits': seq<seq<int>>)
      requires Valid() && 0 <= port < PORTS && bitmap.Length == SLOTS && |d| == SLOTS
      requires 0 <= index < SLOTS && IsFree(d[index].allocState)
      requires Progress(d, hw, futureBlockCount, index, linked, blockCount, prevIndex, firstIndex, tocCalls, commits)
      requires Row(port) == Chained(d, linked, ChainLength(futureBlockCount), BlockBytes(futureBlockCount), StrNCopy(path, NAME_MAX))
      requires bitmap[..] == Bitmap(d, linked)
      requires length == BlockBytes(futureBlockCount)
      requires file.errno == errno0 || firstIndex == 0
      modifies Dir(port), bitmap, file`errno
      ensures !stop ==>
                !hang
                && Progress(d, hw, futureBlockCount, index + 1, linked', blockCount', prevIndex', firstIndex', tocCalls', commits')
                && Row(port) == Chained(d, linked', ChainLength(futureBlockCount), BlockBytes(futureBlockCount), StrNCopy(path, NAME_MAX))
                && bitmap[..] == Bitmap(d, linked')
                && (file.errno == errno0 || firstIndex' == 0)
      ensures stop ==>
                AllocExit(d, hw, futureBlockCount, linked', firstIndex', hang, commits')
                && var chained := Chained(d, linked', ChainLength(futureBlockCount), BlockBytes(futureBlockCount),
                                          StrNCopy(path, NAME_MAX));
                   Row(port) == if hang then chained[firstIndex' := FreedBack(chained[firstIndex'])] else chained
      ensures hang ==> file.errno == errno0
    {
      ghost var n := ChainLength(futureBlockCount);
      blockCount', prevIndex', firstIndex', tocCalls', linked', commits' :=
        blockCount, prevIndex, firstIndex, tocCalls, linked, commits;
      stop, hang := false, false;
      // the chain is closed in the same step as the count is reached
      var closing := futureBlockCount <= blockCount + 1;
      VisitFacts(d, hw, futureBlockCount, index, linked, blockCount, prevIndex, firstIndex, tocCalls, commits);
      if !closing {
        VisitOpen(d, hw, futureBlockCount, index, linked, blockCount, prevIndex, firstIndex, tocCalls, commits);
      } else if !TocOk(hw, tocCalls) {
        VisitStop(d, hw, futureBlockCount, index, linked, blockCount, prevIndex, firstIndex, tocCalls, commits);
      } else if (if blockCount == 0 then index else firstIndex) != 0 {
        VisitHang(d, hw, futureBlockCount, index, linked, blockCount, prevIndex, firstIndex, tocCalls, commits);
      } else {
        VisitExtend(d, hw, futureBlockCount, index, linked, blockCount, prevIndex, firstIndex, tocCalls, commits);
      }
      LinkSlot(port, index, prevIndex, blockCount, closing, length, StrNCopy(path, NAME_MAX), bitmap, d, linked, n);
      if blockCount == 0 {
        firstIndex' := index;
      }
      prevIndex' := index;
      blockCount' := blockCount + 1;
      linked' := linked + 1;
      if closing {
        commits' := commits + [bitmap[..]];
        var written := TocOk(hw, tocCalls);
        tocCalls' := tocCalls + 1;
        if !written {
          // break: the rest of open runs with this first index
          stop := true;
          assert AllocExit(d, hw, futureBlockCount, linked', firstIndex', false, commits');
          return;
        }
        if firstIndex' != 0 {
          // while (firstIndex): the first pass frees the first block and
          // sets firstIndex to -1; every later pass writes the entry
          // before the table, and the loop never ends.
          var entry := Dir(port)[firstIndex'];
          Dir(port)[firstIndex'] := FreedBack(entry);
          stop, hang := true, true;
          assert AllocExit(d, hw, futureBlockCount, linked', firstIndex', true, commits');
          return;
        }
        file.errno := EBUSY;
        blockCount' := blockCount' + 1;
        prevIndex' := index;
      }
      assert Progress(d, hw, futureBlockCount, index + 1, linked', blockCount', prevIndex', firstIndex', tocCalls', commits');
    }

    /**
     * The create branch of open once both checks have passed: the
     * allocation, then the handle gets the first block, offset 0 and the
     * first entry's size.
     */
    method AllocateAndOpen(file: File, port: int, path: seq<char>, futureBlockCount: nat, bitmap: array<int>, hw: Hardware)
      returns (out: Outcome)
      requires Valid() && 0 <= port < PORTS
      requires bitmap.Length == SLOTS && forall i :: 0 <= i < SLOTS ==> bitmap[i] == 0
      requires futureBlockCount <= |FreeIndices(Row(port))|
      requires file.length == BlockBytes(futureBlockCount)
      modifies file`errno, file`lba, file`offset, file`length, Dir(port), bitmap
      ensures Created(Row(port), out, file.View()) == Allocation(old(Row(port)), path, futureBlockCount, hw, old(file.View()))
    {
      ghost var d := Row(port);
      var firstIndex, hang;
      ghost var linked, commits;
      firstIndex, hang, linked, commits := Allocate(file, port, path, futureBlockCount, bitmap, hw);
      ghost var h0 := old(file.View());
      ghost var r := Row(port);
      if hang {
        out := Hang;
        assert file.View() == h0;
      } else {
        file.lba := firstIndex;
        file.offset := 0;
        file.errno := ENOERR;
        if firstIndex == -1 {
          // the handle's length would be read from the entry before the table
          out := OutOfBounds;
          assert file.View() == h0.(errno := ENOERR, lba := firstIndex, offset := 0);
        } else {
          var first := Dir(port)[firstIndex];
          assert first == r[firstIndex];
          file.length := first.fileSize;
          out := Return(0);
          assert file.View() == Handle(ENOERR, firstIndex, 0, first.fileSize);
        }
      }
      AllocatedCreate(d, Row(port), path, futureBlockCount, hw, linked, firstIndex, hang, commits, out,
                      old(file.View()), file.View());
    }

    /**
     * The create branch of open: the name check with status 0, the free
     * count, the block request taken from the mode, and the allocation.
     */
    method Create(file: File, port: int, path: seq<char>, mode: bv32, hw: Hardware) returns (out: Outcome)
      requires Valid() && CardPort(file.deviceId) && port == Port(file.deviceId)
      requires NUL !in path
      modifies file`errno, file`lba, file`offset, file`length, Dir(port), this`deviceStatus, this`nextFileIndex
      ensures Valid() && deviceStatus == 0
      ensures Created(Row(port), out, file.View()) == CreateResult(old(Row(port)), path, RequestedBlocks(mode), hw, old(file.View()))
      ensures nextFileIndex == (var r := Lookup(old(Row(port)), 0, 0, path); if r == -1 then old(nextFileIndex) else r)
    {
      var deviceId := file.deviceId;
      ghost var d := Row(port);
      ghost var h0 := file.View();
      deviceStatus := 0;
      var firstIndex := NextFileInternal(deviceId, 0, path);
      if firstIndex != -1 {
        file.errno := ENOENT;
        out := Return(1);
        assert Created(Row(port), out, file.View()) == Created(d, Return(1), h0.(errno := ENOENT));
        return;
      }
      assert Row(port) == d && file.View() == h0;
      out := CreateMissing(file, port, path, mode, hw);
    }

    /** The create path once the lookup has found no visible file of that name: the space check, then the allocation. */
    method CreateMissing(file: File, port: int, path: seq<char>, mode: bv32, hw: Hardware) returns (out: Outcome)
      requires Valid() && 0 <= port < PORTS && Lookup(Row(port), 0, 0, path) == -1
      modifies file`errno, file`lba, file`offset, file`length, Dir(port)
      ensures Created(Row(port), out, file.View()) == CreateResult(old(Row(port)), path, RequestedBlocks(mode), hw, old(file.View()))
    {
      ghost var d := Row(port);
      ghost var h0 := file.View();
      var bitmap := new int[SLOTS];
      var availableBlocks := CountFree(port, bitmap);
      var futureBlockCount := RequestedBlocks(mode);
      file.length := BlockBytes(futureBlockCount);
      if futureBlockCount > availableBlocks {
        file.errno := ENOSPC;
        out := Return(1);
        assert Created(Row(port), out, file.View())
               == Created(d, Return(1), h0.(errno := ENOSPC, length := BlockBytes(futureBlockCount)));
        return;
      }
      var requested := futureBlockCount;
      futureBlockCount := BlocksForLength(file.length);
      CeilingOfBlockBytes(futureBlockCount, requested);
      assert Row(port) == d && file.View() == h0.(length := BlockBytes(futureBlockCount));
      out := AllocateAndOpen(file, port, path, futureBlockCount, bitmap, hw);
      assert Created(Row(port), out, file.View()) == CreateResult(d, path, requested, hw, h0);
    }

    /**
     * open: busy if the port has an operation in flight; unless the mode
     * asks for asynchronous access, the card is initialised first and a
     * failure gives busy; then either the create path or a lookup of the
     * path with status 0.
     */
    method Open(file: File, path: seq<char>, mode: bv32, hw: Hardware) returns (out: Outcome)
      requires Valid() && CardPort(file.deviceId)
      requires NUL !in path
      modifies file`errno, file`lba, file`offset, file`length, Dir(Port(file.deviceId)), Broken(Port(file.deviceId))
      modifies buffers, this`deviceStatus, this`nextFileIndex
      ensures Valid()
      ensures var p := Port(file.deviceId);
              Opened(Created(Row(p), out, file.View()), nextFileIndex, deviceStatus)
              == OpenResult(old(Row(p)), path, mode, hw, autoFormat, old(operation[p]) != 0,
                            old(file.View()), old(nextFileIndex), old(deviceStatus))
      ensures Row(1 - Port(file.deviceId)) == old(Row(1 - Port(file.deviceId)))
      ensures var p := Port(file.deviceId);
              var init := old(operation[p]) == 0 && (mode & PSXF_ASYNC) != PSXF_ASYNC;
              buffers[..] == (if init then InitBuffers(old(buffers[..]), p, hw) else old(buffers[..]))
              && Broken(p)[..] == (if init then InitBroken(old(Broken(p)[..]), hw) else old(Broken(p)[..]))
              && Broken(1 - p)[..] == old(Broken(1 - p)[..])
    {
      var deviceId := file.deviceId;
      var port := Port(deviceId);
      ghost var d, other, h := Row(port), Row(1 - port), file.View().(errno := EBUSY);
      ghost var bufs, marks := buffers[..], Broken(port)[..];
      ghost var spec := OpenResult(d, path, mode, hw, autoFormat, operation[port] != 0, file.View(),
                                   nextFileIndex, deviceStatus);
      file.errno := EBUSY;
      if operation[port] != 0 {
        out := Return(1);
        assert Opened(Created(Row(port), out, file.View()), nextFileIndex, deviceStatus) == spec;
        assert Row(1 - port) == other;
        return;
      }
      if (mode & PSXF_ASYNC) != PSXF_ASYNC {
        var ok := DevInit(deviceId, hw);
        assert buffers[..] == InitBuffers(bufs, port, hw) && Broken(port)[..] == InitBroken(marks, hw);
        if ok == 0 {
          out := Return(1);
          assert Opened(Created(Row(port), out, file.View()), nextFileIndex, deviceStatus) == spec;
          assert Row(1 - port) == other;
          return;
        }
        assert Row(port) == d;
      }
      assert spec == OpenReady(d, path, mode, hw, h, old(nextFileIndex));
      out := OpenReadyCard(file, port, path, mode, hw);
      assert Opened(Created(Row(port), out, file.View()), nextFileIndex, deviceStatus) == spec;
      assert Row(1 - port) == other;
    }

    /** open once the card is ready: the create path, or a lookup of the path with status 0. */
    method OpenReadyCard(file: File, port: int, path: seq<char>, mode: bv32, hw: Hardware) returns (out: Outcome)
      requires Valid() && CardPort(file.deviceId) && port == Port(file.deviceId)
      requires NUL !in path
      modifies file`errno, file`lba, file`offset, file`length, Dir(port), this`deviceStatus, this`nextFileIndex
      ensures Valid()
      ensures Opened(Created(Row(port), out, file.View()), nextFileIndex, deviceStatus)
              == OpenReady(old(Row(port)), path, mode, hw, old(file.View()), old(nextFileIndex))
    {
      if (mode & PSXF_CREAT) == PSXF_CREAT {
        out := Create(file, port, path, mode, hw);
      } else {
        deviceStatus := 0;
        var firstIndex := NextFileInternal(file.deviceId, 0, path);
        if firstIndex == -1 {
          file.errno := ENOENT;
          return Return(1);
        }
        file.lba := firstIndex;
        file.offset := 0;
        file.errno := ENOERR;
        file.length := Dir(port)[firstIndex].fileSize;
        out := Return(0);
      }
    }

    /** close: 1 while the port has an operation in flight, 0 otherwise. */
    method Close(file: File) returns (r: int)
      requires Valid() && CardPort(file.deviceId)
      ensures r == 0 || r == 1
      ensures r == 0 <==> operation[Port(file.deviceId)] == 0
    {
      var port := Port(file.deviceId);
      if operation[port] == 0 {
        return 0;
      } else {
        return 1;
      }
    }

    /** Compiles a find-first filter into the pattern buffer; `overrun` tells that it wrote past it. */
    method CompileFilter(filter: seq<char>) returns (overrun: bool)
      requires Valid()
      modifies findPattern
      ensures findPattern[..] == CompiledBuffer(old(findPattern[..]), filter)
      ensures overrun == Overruns(filter)
    {
      for i := 0 to 19
        invariant forall j :: 0 <= j < PATTERN_SIZE ==> findPattern[j] == if j < i then '?' else old(findPattern[j])
      {
        findPattern[i] := '?';
      }
      if |filter| == 0 {
        findPattern[19] := NUL;
        assert forall j :: 0 <= j < PATTERN_SIZE ==> findPattern[j] == CompiledAt(old(findPattern[..]), filter, j);
        return false;
      }
      overrun := false;
      var out := 0;
      var star := false;
      while out < |filter| && !star
        invariant 0 <= out <= |filter|
        invariant forall j :: 0 <= j < out ==> filter[j] != '*'
        invariant star ==> out < |filter| && filter[out] == '*'
        invariant forall j :: 0 <= j < PATTERN_SIZE ==>
                    findPattern[j] == if j < out then filter[j] else if j < 19 then '?' else old(findPattern[j])
        invariant overrun == (out > PATTERN_SIZE)
        decreases |filter| - out, if star then 0 else 1
      {
        if filter[out] == '*' {
          star := true;
        } else {
          if out < PATTERN_SIZE {
            findPattern[out] := filter[out];
          } else {
            overrun := true;
          }
          out := out + 1;
        }
      }
      assert out == StarIndex(filter);
      if star {
        while out < PATTERN_SIZE
          invariant StarIndex(filter) <= out
          invariant forall j :: 0 <= j < PATTERN_SIZE ==>
                      findPattern[j] == if j < StarIndex(filter) then filter[j] else if j < out then '?'
                                        else if j < 19 then '?' else old(findPattern[j])
          invariant overrun == (out > PATTERN_SIZE)
        {
          findPattern[out] := '?';
          out := out + 1;
        }
      }
      if out < PATTERN_SIZE {
        findPattern[out] := NUL;
      } else {
        overrun := true;
      }
      assert forall j :: 0 <= j < PATTERN_SIZE ==> findPattern[j] == CompiledAt(old(findPattern[..]), filter, j);
    }

    /**
     * find-next: busy if the port has an operation in flight; otherwise the
     * lookup continues after the cursor with the compiled pattern and the
     * current status, and a hit past the cursor becomes the new cursor.
     */
    method NextFile(file: File) returns (res: Option<DirInfo>)
      requires Valid() && CardPort(file.deviceId)
      modifies file`errno, this`nextFileIndex
      ensures Valid()
      ensures var p := Port(file.deviceId);
              Found(res, file.errno, nextFileIndex)
              == FindNext(Row(p), operation[p] != 0, deviceStatus, old(nextFileIndex), CStr(findPattern[..]))
    {
      var deviceId := file.deviceId;
      var port := Port(deviceId);
      if operation[port] != 0 {
        file.errno := EBUSY;
        return None;
      }
      var index := NextFileInternal(deviceId, nextFileIndex + 1, CStr(findPattern[..]));
      if index == -1 {
        file.errno := ENOENT;
        return None;
      }
      var entry := Dir(port)[index];
      res := Some(DirInfo(entry.allocState & 0xf0, (index + 1) * 0x40, entry.fileSize, entry.name));
      file.errno := ENOERR;
    }

    /**
     * find-first: busy if the port has an operation in flight or the card
     * does not initialise (a failed sector read has cleared the table);
     * otherwise the filter is compiled, the cursor reset to -1, and
     * find-next runs.
     */
    method FirstFile(file: File, filter: seq<char>, hw: Hardware) returns (res: Option<DirInfo>, overrun: bool)
      requires Valid() && CardPort(file.deviceId)
      requires NUL !in filter
      modifies file`errno, this`nextFileIndex, findPattern, Dir(Port(file.deviceId)), Broken(Port(file.deviceId)), buffers
      ensures Valid()
      ensures var p := Port(file.deviceId);
              if old(operation[p]) != 0 || InitResult(hw, autoFormat) == 0 then
                res == None && file.errno == EBUSY && !overrun
                && nextFileIndex == old(nextFileIndex) && findPattern[..] == old(findPattern[..])
                && Row(p) == if old(operation[p]) != 0 || hw.readOk then old(Row(p)) else ClearedRow()
              else
                findPattern[..] == CompiledBuffer(old(findPattern[..]), filter)
                && overrun == Overruns(filter)
                && Row(p) == old(Row(p))
                && Found(res, file.errno, nextFileIndex) == FindNext(Row(p), false, deviceStatus, -1, EffectivePattern(filter))
      ensures var p := Port(file.deviceId);
              buffers[..] == (if old(operation[p]) == 0 then InitBuffers(old(buffers[..]), p, hw) else old(buffers[..]))
              && Broken(p)[..] == (if old(operation[p]) == 0 then InitBroken(old(Broken(p)[..]), hw) else old(Broken(p)[..]))
              && Row(1 - p) == old(Row(1 - p)) && Broken(1 - p)[..] == old(Broken(1 - p)[..])
    {
      file.errno := EBUSY;
      var deviceId := file.deviceId;
      var port := Port(deviceId);
      ghost var bufs, marks := buffers[..], Broken(port)[..];
      overrun := false;
      if operation[port] != 0 {
        return None, false;
      }
      var ok := DevInit(deviceId, hw);
      assert buffers[..] == InitBuffers(bufs, port, hw) && Broken(port)[..] == InitBroken(marks, hw);
      if ok == 0 {
        return None, false;
      }
      res, overrun := FindFirstReady(file, filter);
    }

    /** find-first once the card is ready: compile the filter, reset the cursor, run find-next. */
    method FindFirstReady(file: File, filter: seq<char>) returns (res: Option<DirInfo>, overrun: bool)
      requires Valid() && CardPort(file.deviceId) && operation[Port(file.deviceId)] == 0
      requires NUL !in filter
      modifies file`errno, this`nextFileIndex, findPattern
      ensures Valid()
      ensures findPattern[..] == CompiledBuffer(old(findPattern[..]), filter) && overrun == Overruns(filter)
      ensures var p := Port(file.deviceId);
              Found(res, file.errno, nextFileIndex) == FindNext(Row(p), false, deviceStatus, -1, EffectivePattern(filter))
    {
      ghost var prev := findPattern[..];
      overrun := CompileFilter(filter);
      CompiledPattern(prev, filter);
      nextFileIndex := -1;
      res := NextFile(file);
    }

    /** format: busy if the port has an operation in flight or the format fails. */
    method Format(file: File, hw: Hardware) returns (r: int)
      requires Valid() && CardPort(file.deviceId)
      modifies file`errno
      ensures var failed := operation[Port(file.deviceId)] != 0 || hw.formatResult == 0;
              (failed ==> r == 1 && file.errno == EBUSY)
              && (!failed ==> r == 0 && file.errno == ENOERR)
    {
      var port := Port(file.deviceId);
      if operation[port] != 0 {
        file.errno := EBUSY;
        return 1;
      }
      if hw.formatResult == 0 {
        file.errno := EBUSY;
        return 1;
      }
      file.errno := ENOERR;
      return 0;
    }
  }
}
