# Memory-card ("bu") device driver, modelled in Dafny

This project models the memory-card device driver of the OpenBIOS kernel
(`src/mips/openbios/card/device.c`). The driver has these entry points:

- `open`: the create path and the plain open;
- `close`;
- `firstFile` / `nextFile`: the enumeration;
- `format`.

It also has the helpers behind them:

- `patternMatch`, the `?` wildcard matcher;
- `buNextFileInternal`, the directory lookup;
- `buDevInit`, card initialisation.

The driver keeps this global state:

- per port, a 15-slot directory table, a 20-entry broken-block list, a sector buffer and a pending-operation flag;
- one find pattern and one find cursor shared by both ports.

## How the model is built

- **`bu_types.dfy` (module `BuTypes`):**
  - the directory entry and the allocation codes:
    - `0xa0`, the code the free-back loop writes; any code whose high nibble is `0xa` counts as free;
    - `0x51`/`0x52`/`0x53`, the codes the create path writes on the first, middle and last block of a file;
    - `0xa1`, the first-block code a lookup accepts while the device status is non-zero. Its high nibble is `0xa`, so the free test counts such a slot as free and a create may link it into a new file;
  - the error numbers and the outcome of an entry point (a return value, a call that never returns, a read outside the table);
  - the answers of the hardware calls;
  - the deviceId → port mapping.
- **`pattern.dfy` (module `PatternMatch`):** `patternMatch` as a recursive function, and its positional characterisation.
- **`find_pattern.dfy` (module `FindPattern`):** the 20-byte find pattern that `firstFile` compiles from a filter with an optional `*`, and the pattern that lookups then use.
- **`directory.dfy` (module `Directory`):** specifications over one port's table:
  - the lookup (first hit from a start slot) and the hits in slot order;
  - the enumeration that repeated find-next calls produce;
  - the free slots and the rank of a slot among them;
  - `Chained`, the table once the first c free slots have been linked into a file chain;
  - `Bitmap`, the bitmap the create path hands to each directory write.
- **`create_path.dfy` (module `CreatePath`):**
  - the create path as a specification (`CreateResult`, `Allocation`);
  - the allocation loop's invariant (`Progress`) and exit condition (`AllocExit`), proved one loop visit at a time.
- **`device.dfy` (module `Device`):**
  - the class `BuDriver`, whose fields are the driver's globals; each port has its own directory array and broken-block array, as `g_buDirEntries[port]` is in the code;
  - the class `File`, the caller's handle, whose fields the entry points set;
  - the entry points as methods with loops over those arrays;
  - specification functions for what `open`, `find-next` and card initialisation leave behind (`OpenResult`, `FindNext`, `InitResult`), proved against the methods.

**Hardware and lower layers.** The hardware and the lower layers are not modelled. These are the sector read, the status wait, `buInit`, `buFormat` and `buWriteTOC`. One `Hardware` value gives their answers for the whole call. The k-th directory write of one call succeeds when `tocResults[k]` is true; a write past the end of that list fails.

**Device status.** The device status that `syscall_getDeviceStatus` reads is the driver field `deviceStatus`. `syscall_setDeviceStatus(0)` sets that field.

### Behaviour of the code worth knowing

- **Duplicate name.** Creating a file whose name is already visible sets `ENOENT` and returns 1 (`device.c:119-122`).
- **Block count.** The number of blocks a create asks for is bits 16-31 of the open mode (`device.c:130-131`). The length is that count times 8192 (`device.c:132`). The recount from `file->length` (`device.c:138-139`) always gives the same number back (`CeilingOfBlockBytes`).
- **Free-back loop.** After a successful directory write the loop at `device.c:161-167` runs while `firstIndex` is non-zero:
  - when the first block is not slot 0, its first pass frees that slot and sets `firstIndex` to -1; every later pass rewrites the entry before the table, and the loop never ends;
  - when the first block is slot 0, the loop body never runs, and the allocation loop goes on linking every later free slot into the chain, writing the directory again after each one.
- **Success after a failed write.** A failed directory write only leaves the allocation loop (`device.c:160`). `open` then returns 0 with the first block.
- **Zero blocks, no free slot.** A create that asks for 0 blocks on a card with no free slot reads the entry before the table for the handle's length (`device.c:183` with `firstIndex == -1`).
- **Reused `0xa1` slots.** A create counts and links a `0xa1` slot like any other free slot (`device.c:128`, `144`), so it may overwrite the first block of a file that a lookup under a non-zero status shows.
- **`close`.** It returns 0 when the port has no operation in flight and 1 otherwise. It leaves the pending-operation flag as it is (`device.c:191-196`).

## Model

| member | source | states |
|---|---|---|
| BuTypes.Port | src/mips/openbios/card/device.c:54-55 | the port is the id divided by 16 rounded toward zero: a non-negative id lies in the 16 ids of its port, a negative one in the 16 just above |
| BuTypes.PortTruncates | src/mips/openbios/card/device.c:54-55 | adding 15 to a negative id and shifting right by 4 is C's division by 16, which truncates toward zero |
| BuTypes.PortRange | src/mips/openbios/card/device.c:54-55 | ids 0x00-0x0f name port 0 and 0x10-0x1f port 1; an id names one of the two ports exactly when it lies in -15..31 |
| PatternMatch.Match | src/mips/openbios/card/device.c:42-51 | a match needs a pattern at least as long as the name, and a pattern longer than the name must have `?` right after it |
| PatternMatch.MatchIff | src/mips/openbios/card/device.c:42-51 | patternMatch accepts exactly when each name character equals the pattern character at its position or that one is `?`, and the pattern character just after the name is the terminator or `?` (both directions) |
| PatternMatch.MatchLocal | src/mips/openbios/card/device.c:45-49 | only the first length+1 pattern characters decide the match; anything after them is never looked at |
| PatternMatch.MatchSelf | src/mips/openbios/card/device.c:42-51 | every name matches itself |
| PatternMatch.TrailingUnchecked | src/mips/openbios/card/device.c:49 | a `?` right after the name accepts whatever follows it in the pattern |
| PatternMatch.MatchExamples | src/mips/openbios/card/device.c:42-51 | `A?C` matches `ABC` but not `ABCD` or `AB`; `AB?X` matches `AB`; `SAVE1` does not match `SAVE2` |
| FindPattern.CompiledEmpty | src/mips/openbios/card/device.c:234-236 | an empty filter compiles to 19 `?` and a terminator, with no overrun |
| FindPattern.CompiledStar | src/mips/openbios/card/device.c:234-248 | a filter with `*` compiles to the characters before the `*` followed by `?` up to byte 20, and the terminator is stored one byte past the buffer |
| FindPattern.CompiledLiteral | src/mips/openbios/card/device.c:237-249 | a filter of fewer than 20 characters without `*` is copied and terminated, with no overrun |
| FindPattern.CompiledPattern | src/mips/openbios/card/device.c:234-249 | for every filter, the string later lookups read from the 20-byte buffer is the filter's effective pattern: its prefix before `*` padded with `?` to 20 characters, or the filter itself |
| FindPattern.StarMatches | src/mips/openbios/card/device.c:240-247 | a `*` filter matches every name of at most 20 characters that begins with the part before the `*` |
| FindPattern.WildcardExamples | src/mips/openbios/card/device.c:234-249 | the filter `SAVE*` matches `SAVE1`, `SAVEDATA` and `SAVE` |
| FindPattern.LiteralExample | src/mips/openbios/card/device.c:234-249 | the filter `SAVE1` does not match `SAVE2` |
| Directory.Lookup | src/mips/openbios/card/device.c:57-70 | the lookup returns the first slot at or after the start that is visible under the status flag (0x51 when the status is 0, 0xa1 otherwise), has a non-empty name and matches; -1 exactly when there is none |
| Directory.Visible | src/mips/openbios/card/device.c:59-63 | only a first block is visible; with status 0 it is a slot the free test counts as used, with any other status one it counts as free |
| Directory.Hit | src/mips/openbios/card/device.c:59-65 | a slot the lookup accepts is visible and has a non-empty name no longer than the pattern |
| Directory.HitsSpec | src/mips/openbios/card/device.c:57-68 | the reference list of hits holds exactly the slots the lookup accepts, in strictly increasing order |
| Directory.EnumerateIsHits | src/mips/openbios/card/device.c:250-270 | repeatedly looking from cursor + 1 and moving the cursor to the hit yields exactly the hits after the cursor, each once, in slot order |
| Directory.FreeIndicesSpec | src/mips/openbios/card/device.c:126-129 | the free list holds every slot whose code's high nibble is 0xa and nothing else, in increasing order |
| Directory.ChainIsLinkedList | src/mips/openbios/card/device.c:142-159 | once c of the free slots are linked, following nextBlock from the first free slot visits exactly those c slots in index order and ends at -1; the first is 0x51 with the size and name, the others carry the middle/last tags |
| Directory.ChainedConsumesFree | src/mips/openbios/card/device.c:142-159 | linking c slots removes exactly the first c free slots from the free list and leaves the rest free |
| Directory.ChainedNext | src/mips/openbios/card/device.c:143-159 | linking the next free slot changes only that slot (tag, size and name on the first, -1 link when the chain closes) and the previous slot's link, and adds that slot's mark (0x51 or 0x52) to the bitmap |
| Directory.BitmapMarksChain | src/mips/openbios/card/device.c:149-154 | the bitmap is non-zero exactly at the linked slots: 0x51 at the first, 0x52 at the others |
| Directory.CreatedIsOnlyHit | src/mips/openbios/card/device.c:146-148 | after a create of a name no visible file has, with status 0 the new first block is the only slot the name finds |
| CreatePath.Allocation | src/mips/openbios/card/device.c:140-184 | after the checks pass: a read before the table exactly when no slot is free; a hang exactly when the first write succeeds and the first free slot is not slot 0; otherwise 0 with the handle at the first free slot, now tagged 0x51 with size and handle length both the requested blocks times 8192 |
| CreatePath.CreateResult | src/mips/openbios/card/device.c:117-184 | the table keeps its size; returning 1 leaves it unchanged with ENOENT or ENOSPC; a name not yet visible sets the length to the requested blocks times 8192; returning 0 gives ENOERR, offset 0 and a slot in the table whose size is the handle's length |
| CreatePath.ProgressStart | src/mips/openbios/card/device.c:140-142 | the allocation loop's invariant holds before slot 0 |
| CreatePath.ProgressSkip | src/mips/openbios/card/device.c:144 | a used slot leaves every counter as it is |
| CreatePath.VisitFacts | src/mips/openbios/card/device.c:144-157 | at a free slot, the block count is zero exactly before the first link, and the chain closes there exactly when the requested count is reached |
| CreatePath.VisitOpen | src/mips/openbios/card/device.c:145-157 | linking a free slot while the chain is open keeps the invariant with one more slot linked |
| CreatePath.VisitExtend | src/mips/openbios/card/device.c:157-170 | a successful write with first block 0 skips the free-back loop; the loop goes on with the count bumped and the write's bitmap recorded |
| CreatePath.VisitStop | src/mips/openbios/card/device.c:158-160 | a failed directory write ends the loop with the chain as linked so far |
| CreatePath.VisitHang | src/mips/openbios/card/device.c:160-167 | a successful write whose first block is not slot 0 enters the free-back loop, which never ends |
| CreatePath.ProgressDone | src/mips/openbios/card/device.c:142 | running past slot 14 ends the loop without a hang, with the exit condition met |
| CreatePath.AllocatedCreate | src/mips/openbios/card/device.c:140-184 | what the allocation loop leaves, followed by the handle update, is the create path's specified result |
| CreatePath.CreateRejects | src/mips/openbios/card/device.c:119-136 | create returns 1 exactly for a visible duplicate name or too few free slots; the table is then unchanged, with ENOENT for the duplicate and ENOSPC with the length already set otherwise |
| CreatePath.CreateThenFind | src/mips/openbios/card/device.c:117-184 | after a create that returns 0 for a literal name, the handle points at a slot whose size is the requested block count times 8192; a lookup of the name finds it, and find-first with the name yields exactly that slot |
| Device.RequestedBlocks | src/mips/openbios/card/device.c:130-132 | the requested count is below 65536, so its byte length stays below 2^31 |
| Device.InitResult | src/mips/openbios/card/device.c:73-95 | initialisation succeeds only after a good read; a good read, status 0 and the `MC` magic give 1; a status other than 0 and 3 gives 0; status 3 gives `buInit`'s answer; a card without the magic gives `buFormat`'s answer when auto-format is on and 0 when it is off |
| Device.InitBuffers | src/mips/openbios/card/device.c:77 | a good read leaves the sector in the port's buffer; the other port's buffer is unchanged |
| Device.InitBroken | src/mips/openbios/card/device.c:77-85 | a failed read sets all 20 broken-block markers of the port to -1; a good read leaves them alone |
| Device.OpenResult | src/mips/openbios/card/device.c:105-185 | a pending operation gives busy and 1 with nothing else changed; a failed initialisation (unless asynchronous) gives busy and 1 with the cursor kept and the table cleared exactly when the sector read failed; otherwise the result is what open on a ready card gives; returning 0 leaves status 0, ENOERR, offset 0 and a slot whose size is the handle's length |
| Device.OpenReady | src/mips/openbios/card/device.c:117-184 | the status becomes 0; with create the table, outcome and handle are the create specification's; without create the table is kept, open returns 0 exactly when the lookup from slot 0 with status 0 finds the path, with the handle and the cursor at that first hit, and otherwise returns 1 with ENOENT and the cursor kept |
| Device.Info | src/mips/openbios/card/device.c:271-275 | the reported attributes are the code's high nibble, the size and name are the entry's, and the address is a multiple of 0x40 that gives back slot index + 1 |
| Device.FindNext | src/mips/openbios/card/device.c:254-279 | an entry is reported exactly when errno is ENOERR; otherwise the cursor is kept and errno is busy exactly on a pending operation; a reported entry is the first hit after the cursor, which moves to it |
| Device.BlocksForLength | src/mips/openbios/card/device.c:138-139 | the recount is the length divided by 8192, rounded up |
| Device.CeilingOfBlockBytes | src/mips/openbios/card/device.c:130-139 | recounting the byte length of n blocks gives n back |
| Device.FindNextSteps | src/mips/openbios/card/device.c:265-278 | one find-next call reports the head of the enumeration from the cursor (ENOENT exactly when that is empty) and moves the cursor so that the rest follows |
| Device.BuDriver.NextFileInternal | src/mips/openbios/card/device.c:53-71 | the loop over the port's table returns the lookup's result, and the cursor moves to it when it is not -1 |
| Device.BuDriver.DevInit | src/mips/openbios/card/device.c:73-95 | the result is the initialisation answer; a failed read clears the port's table and sets its 20 broken-block markers to -1, a good read fills its buffer; the other port is untouched |
| Device.BuDriver.CountFree | src/mips/openbios/card/device.c:124-129 | the loop zeroes the bitmap and counts exactly the free slots |
| Device.BuDriver.LinkSlot | src/mips/openbios/card/device.c:143-159 | one free-slot visit turns the table with c slots linked into the one with c + 1, and the bitmap likewise |
| Device.BuDriver.VisitFree | src/mips/openbios/card/device.c:144-170 | one free-slot visit keeps the loop invariant, or ends the loop with its exit condition and the table it leaves (the freed first block when it hangs) |
| Device.BuDriver.Allocate | src/mips/openbios/card/device.c:140-171 | the allocation loop ends with the exit condition met and the table equal to the chain it has linked, with the first block freed back when it hangs |
| Device.BuDriver.AllocateAndOpen | src/mips/openbios/card/device.c:140-184 | the table, outcome and handle after the allocation and the handle update are the specified allocation result |
| Device.BuDriver.Create | src/mips/openbios/card/device.c:117-184 | the create branch leaves the table, outcome and handle the create specification gives; the status becomes 0 and the cursor moves to a duplicate it finds |
| Device.BuDriver.CreateMissing | src/mips/openbios/card/device.c:124-184 | once no visible file has the name, the space check and the allocation leave the table, outcome and handle the create specification gives |
| Device.BuDriver.OpenReadyCard | src/mips/openbios/card/device.c:117-184 | once the card is ready, open follows the create path or the plain lookup, as the mode says |
| Device.BuDriver.Open | src/mips/openbios/card/device.c:105-185 | open leaves its port's table, the outcome, the handle, the cursor and the status as the open specification gives (busy on a pending operation or a failed init, the table cleared on a failed read); unless busy or asynchronous, the port's buffer and broken-block markers are those initialisation leaves; the other port's table and markers are untouched |
| Device.BuDriver.Close | src/mips/openbios/card/device.c:187-197 | close returns 0 exactly when the port has no operation in flight, and 1 otherwise |
| Device.BuDriver.CompileFilter | src/mips/openbios/card/device.c:234-249 | the loops leave the compiled buffer in the pattern field and report whether the terminator fell past it |
| Device.BuDriver.NextFile | src/mips/openbios/card/device.c:254-279 | busy while an operation is in flight; otherwise the next hit after the cursor is reported (attributes, address (index+1)*0x40, size, name) and becomes the cursor, or ENOENT leaves the cursor alone |
| Device.BuDriver.FirstFile | src/mips/openbios/card/device.c:223-252 | busy (nothing compiled, cursor kept) on a pending operation or a failed init; otherwise the filter is compiled and find-next runs from cursor -1 with its effective pattern; unless busy, the port's buffer and broken-block markers are those initialisation leaves; the other port's table and markers are untouched |
| Device.BuDriver.FindFirstReady | src/mips/openbios/card/device.c:234-251 | compiling the filter and resetting the cursor, then find-next, reports the first hit of the effective pattern |
| Device.BuDriver.Format | src/mips/openbios/card/device.c:281-298 | format fails with busy and 1 when an operation is in flight or the format fails, and otherwise clears errno and returns 0 |

## Left out

- `dev_bu_read`, `dev_bu_write`, `dev_bu_erase`, `dev_bu_undelete`, `dev_bu_rename` and `dev_bu_deinit` are left out. They only print a diagnostic and halt (`device.c:97-103`, `199-221`, `300-310`).
- The dispatch table that exports the entry points (`device.c:312-334`) is a static initialiser, so there is nothing to model.
- The sector read, the status wait, `buInit`, `buFormat` and `buWriteTOC` are represented only by their answers. The model assumes that `buInit` and `buFormat` leave the directory tables, the broken-block markers and the buffers as they were; what they write to the card is not part of this model.
- `mcResetStatus`'s effect on the card's event flags is not part of this model. The model assumes it leaves the directory tables as they were.
- Device ids outside -15..31 are excluded: `Device.BuDriver.NextFileInternal`, `DevInit`, `Create`, `OpenReadyCard`, `Open`, `Close`, `FirstFile`, `FindFirstReady`, `NextFile` and `Format` require `CardPort`. For those ids the C code indexes `g_buOperation` and `g_buDirEntries` out of bounds, which the model does not describe.
- `g_buOperation` is set by code outside this file. In the model the pending-operation flags are read-only.
- The values of `PSXF_CREAT`, `PSXF_ASYNC` and the errno codes come from a header that is not part of this model. The model uses the psxlibc values 0x200 and 0x8000 and a symbolic `Errno`.
- The byte layout of a directory entry is not modelled.
  - A name is the sequence of characters before its terminator.
  - `strncpy` of a path of 20 or more characters stores no terminator. The model then keeps the first 20 characters; the C lookup's `strlen` would read into the next field.
- The read of the entry before the table (`buEntries[-1]`, only reached with `firstIndex == -1`) is modelled as the outcome `OutOfBounds`, with the handle's length left as it was. On port 0 that memory lies before both tables. On port 1 it is port 0's slot 14, whose size the C code puts in the handle's length; the model does not reflect this.
- The endless free-back loop is modelled as the outcome `Hang`, after its first pass has freed the first block. Its later passes keep setting the entry before the table to code 0xa0, size 0 and link -1. On port 1 that entry is port 0's slot 14; the model does not reflect these writes, and `Device.BuDriver.Open`'s clause that the other port's table is untouched does not describe them.
- CreatePath.Allocation: the bitmaps handed to each directory write are stated only by `Device.BuDriver.Allocate` (its `commits`, through `AllocExit`); the create specification that `Create` and `Open` are proved against does not carry them.
- Device.BuDriver.CompileFilter: the writes past the 20-byte pattern buffer are reported only as the `overrun` flag. These are the terminator after a `*` filter, and the characters and terminator of a filter of 20 or more characters. What they overwrite is not modelled, and lookups read the pattern as at most the buffer's 20 bytes.
- Device.BuDriver.DevInit: after a failed sector read the port's buffer is left unchanged, whatever a partial read would have left in it.
- Concurrency and interrupts are not modelled; the driver runs in a single execution context.
