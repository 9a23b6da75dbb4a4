/**
 * The create path of open as a specification: how many free slots the
 * allocation loop links, what it leaves in the table and the handle, and
 * the loop's bookkeeping, proved step by step.
 */
module CreatePath {
  import opened BuTypes
  import opened PatternMatch
  import opened Directory
  import opened FindPattern

  /** A slot after one pass of the commit loop's free-back body. */
  function FreedBack(e: Entry): (f: Entry)
    ensures IsFree(f.allocState) && f.fileSize == 0 && f.nextBlock == -1 && f.name == e.name
  {
    e.(allocState := FREE, fileSize := 0, nextBlock := -1)
  }

  /** How many slots a request for `blocks` links at least: a request for none still takes one. */
  function ChainLength(blocks: nat): (n: nat)
    ensures n >= 1 && n >= blocks
  {
    if blocks == 0 then 1 else blocks
  }

  /**
   * How many free slots end up linked when the first block is slot 0 and
   * the first directory write succeeded: the create keeps linking each
   * later free slot and writing the directory again, and stops after the
   * first write that fails or at the last free slot.
   */
  function ChainEnd(hw: Hardware, n: nat, c: nat, total: nat): (e: nat)
    requires n <= c <= total
    decreases total - c
    ensures c <= e <= total
    ensures e < total ==> c < e && !TocOk(hw, e - n)
  {
    if c == total then c
    else if TocOk(hw, c + 1 - n) then ChainEnd(hw, n, c + 1, total)
    else c + 1
  }

  /** How many free slots the allocation loop leaves linked, fr being the free slots it starts from. */
  function LinkedCount(fr: seq<int>, hw: Hardware, n: nat): (linked: nat)
    requires fr == [] || n <= |fr|
    ensures fr != [] ==> n <= linked <= |fr|
  {
    if fr == [] then 0
    else if !TocOk(hw, 0) || fr[0] != 0 then n
    else ChainEnd(hw, n, n, |fr|)
  }

  /**
   * What the allocation loop leaves behind, from the table d it starts
   * from: the first block is the first free slot (-1 when there is none),
   * the loop hangs exactly when the first write succeeds and the first
   * block is not slot 0, `linked` free slots are linked, and each write
   * handed over the bitmap of the chain as it then stood.
   */
  ghost predicate AllocExit(d: seq<Entry>, hw: Hardware, futureBlockCount: nat, linked: nat, firstIndex: int,
                            hang: bool, commits: seq<seq<int>>)
  {
    var fr := FreeIndices(d);
    var n := ChainLength(futureBlockCount);
    -1 <= firstIndex < |d|
    && firstIndex == (if fr == [] then -1 else fr[0])
    && (hang <==> fr != [] && TocOk(hw, 0) && fr[0] != 0)
    && (fr == [] || n <= |fr|)
    && linked == LinkedCount(fr, hw, n)
    && |commits| == (if fr == [] then 0 else linked - n + 1)
    && forall k :: 0 <= k < |commits| ==> commits[k] == Bitmap(d, n + k)
  }

  /**
   * The allocation loop's counters before it visits slot `index`: the
   * free slots before it are linked, the block count runs one ahead of
   * the linked count once the chain has been closed (the firmware bumps it
   * after every successful write), and the loop only gets past the first
   * write when the first block is slot 0.
   */
  ghost predicate Progress(d: seq<Entry>, hw: Hardware, futureBlockCount: nat, index: nat, linked: nat,
                           blockCount: int, prevIndex: int, firstIndex: int, tocCalls: int, commits: seq<seq<int>>)
  {
    var fr := FreeIndices(d);
    var n := ChainLength(futureBlockCount);
    index <= |d| && futureBlockCount <= |fr| && linked == Rank(d, index) && linked <= |fr|
    && blockCount == (if linked < n then linked else 2 * linked - n + 1)
    && (linked > 0 ==> prevIndex == fr[linked - 1] && firstIndex == fr[0])
    && (linked == 0 ==> firstIndex == -1)
    && (linked < n ==> tocCalls == 0 && commits == [])
    && (linked >= n ==> TocOk(hw, 0) && fr[0] == 0 && tocCalls == linked - n + 1
                        && ChainEnd(hw, n, linked, |fr|) == ChainEnd(hw, n, n, |fr|)
                        && |commits| == linked - n + 1
                        && forall k :: 0 <= k < |commits| ==> commits[k] == Bitmap(d, n + k))
  }

  lemma ProgressStart(d: seq<Entry>, hw: Hardware, futureBlockCount: nat)
    requires futureBlockCount <= |FreeIndices(d)|
    ensures Progress(d, hw, futureBlockCount, 0, 0, 0, 0, -1, 0, [])
  {
    assert d[..0] == [];
  }

  lemma ProgressSkip(d: seq<Entry>, hw: Hardware, futureBlockCount: nat, index: nat, linked: nat,
                     blockCount: int, prevIndex: int, firstIndex: int, tocCalls: int, commits: seq<seq<int>>)
    requires Progress(d, hw, futureBlockCount, index, linked, blockCount, prevIndex, firstIndex, tocCalls, commits)
    requires index < |d| && !IsFree(d[index].allocState)
    ensures Progress(d, hw, futureBlockCount, index + 1, linked, blockCount, prevIndex, firstIndex, tocCalls, commits)
  {
    FreeIndicesSnoc(d, index);
  }

  /**
   * Visiting the free slot `index`: it is the linked-th free slot, the
   * chain closes here exactly when the count is reached, and the first
   * block is the first free slot.
   */
  lemma VisitFacts(d: seq<Entry>, hw: Hardware, futureBlockCount: nat, index: nat, linked: nat,
                   blockCount: int, prevIndex: int, firstIndex: int, tocCalls: int, commits: seq<seq<int>>)
    requires Progress(d, hw, futureBlockCount, index, linked, blockCount, prevIndex, firstIndex, tocCalls, commits)
    requires index < |d| && IsFree(d[index].allocState)
    ensures Rank(d, index) == linked && linked < |FreeIndices(d)| && FreeIndices(d)[linked] == index
    ensures Rank(d, index + 1) == linked + 1
    ensures blockCount >= 0 && (blockCount == 0 <==> linked == 0)
    ensures futureBlockCount <= blockCount + 1 <==> linked + 1 >= ChainLength(futureBlockCount)
    ensures (if blockCount == 0 then index else firstIndex) == FreeIndices(d)[0]
  {
    FreeIndicesSnoc(d, index);
    RankAt(d, index);
  }

  /** Linking a free slot short of the count: the loop goes on. */
  lemma VisitOpen(d: seq<Entry>, hw: Hardware, futureBlockCount: nat, index: nat, linked: nat,
                  blockCount: int, prevIndex: int, firstIndex: int, tocCalls: int, commits: seq<seq<int>>)
    requires Progress(d, hw, futureBlockCount, index, linked, blockCount, prevIndex, firstIndex, tocCalls, commits)
    requires index < |d| && IsFree(d[index].allocState)
    requires futureBlockCount > blockCount + 1
    ensures Progress(d, hw, futureBlockCount, index + 1, linked + 1, blockCount + 1, index,
                     if blockCount == 0 then index else firstIndex, tocCalls, commits)
  {
    VisitFacts(d, hw, futureBlockCount, index, linked, blockCount, prevIndex, firstIndex, tocCalls, commits);
  }

  /**
   * Linking the free slot that reaches the count, with the directory
   * write succeeding and the first block at slot 0: the write is counted
   * and the loop goes on with the block count bumped once more.
   */
  lemma VisitExtend(d: seq<Entry>, hw: Hardware, futureBlockCount: nat, index: nat, linked: nat,
                    blockCount: int, prevIndex: int, firstIndex: int, tocCalls: int, commits: seq<seq<int>>)
    requires Progress(d, hw, futureBlockCount, index, linked, blockCount, prevIndex, firstIndex, tocCalls, commits)
    requires index < |d| && IsFree(d[index].allocState)
    requires futureBlockCount <= blockCount + 1 && TocOk(hw, tocCalls)
    requires (if blockCount == 0 then index else firstIndex) == 0
    ensures Progress(d, hw, futureBlockCount, index + 1, linked + 1, blockCount + 2, index, 0, tocCalls + 1,
                     commits + [Bitmap(d, linked + 1)])
  {
    VisitFacts(d, hw, futureBlockCount, index, linked, blockCount, prevIndex, firstIndex, tocCalls, commits);
    var n := ChainLength(futureBlockCount);
    if linked >= n {
      assert ChainEnd(hw, n, linked, |FreeIndices(d)|) == ChainEnd(hw, n, linked + 1, |FreeIndices(d)|);
    }
  }

  /** Linking the free slot that reaches the count, with the directory write failing: the loop stops. */
  lemma VisitStop(d: seq<Entry>, hw: Hardware, futureBlockCount: nat, index: nat, linked: nat,
                  blockCount: int, prevIndex: int, firstIndex: int, tocCalls: int, commits: seq<seq<int>>)
    requires Progress(d, hw, futureBlockCount, index, linked, blockCount, prevIndex, firstIndex, tocCalls, commits)
    requires index < |d| && IsFree(d[index].allocState)
    requires futureBlockCount <= blockCount + 1 && !TocOk(hw, tocCalls)
    ensures AllocExit(d, hw, futureBlockCount, linked + 1, if blockCount == 0 then index else firstIndex, false,
                      commits + [Bitmap(d, linked + 1)])
  {
    VisitFacts(d, hw, futureBlockCount, index, linked, blockCount, prevIndex, firstIndex, tocCalls, commits);
    var n := ChainLength(futureBlockCount);
    if linked >= n {
      assert ChainEnd(hw, n, linked, |FreeIndices(d)|) == linked + 1;
    }
  }

  /**
   * Linking the free slot that reaches the count, with the directory
   * write succeeding and the first block elsewhere than slot 0: the
   * free-back loop is entered and never left.
   */
  lemma VisitHang(d: seq<Entry>, hw: Hardware, futureBlockCount: nat, index: nat, linked: nat,
                  blockCount: int, prevIndex: int, firstIndex: int, tocCalls: int, commits: seq<seq<int>>)
    requires Progress(d, hw, futureBlockCount, index, linked, blockCount, prevIndex, firstIndex, tocCalls, commits)
    requires index < |d| && IsFree(d[index].allocState)
    requires futureBlockCount <= blockCount + 1 && TocOk(hw, tocCalls)
    requires (if blockCount == 0 then index else firstIndex) != 0
    ensures AllocExit(d, hw, futureBlockCount, linked + 1, if blockCount == 0 then index else firstIndex, true,
                      commits + [Bitmap(d, linked + 1)])
  {
    VisitFacts(d, hw, futureBlockCount, index, linked, blockCount, prevIndex, firstIndex, tocCalls, commits);
  }

  lemma ProgressDone(d: seq<Entry>, hw: Hardware, futureBlockCount: nat, linked: nat,
                     blockCount: int, prevIndex: int, firstIndex: int, tocCalls: int, commits: seq<seq<int>>)
    requires Progress(d, hw, futureBlockCount, |d|, linked, blockCount, prevIndex, firstIndex, tocCalls, commits)
    ensures AllocExit(d, hw, futureBlockCount, linked, firstIndex, false, commits)
  {
    RankFull(d);
    assert d[..|d|] == d;
  }

  /** What the create path leaves: the directory table, how open ends, and the caller's handle. */
  datatype Created = Created(table: seq<Entry>, out: Outcome, handle: Handle)

  /**
   * The create path once the name and space checks have passed, from the
   * table d and the handle h0 (whose length already holds the request's
   * byte size). max(blocks, 1) free slots are linked and the directory
   * written. If that write fails, open reports success with the first
   * block. If it succeeds and the first block is not slot 0, the free-back
   * loop frees that block and then never ends. If it is slot 0, every
   * later free slot is linked on as well. A request for 0 blocks on a card
   * with no free slot reads the entry before the table for the length.
   */
  function Allocation(d: seq<Entry>, path: seq<char>, blocks: nat, hw: Hardware, h0: Handle): (c: Created)
    requires blocks <= |FreeIndices(d)|
    ensures |c.table| == |d|
    ensures c.out == OutOfBounds <==> FreeIndices(d) == []
    ensures c.out == Hang <==> FreeIndices(d) != [] && TocOk(hw, 0) && FreeIndices(d)[0] != 0
    ensures c.out == Hang ==> c.handle == h0
    ensures c.out.Return? ==>
              c.out == Return(0) && c.handle.errno == ENOERR && c.handle.offset == 0
              && c.handle.lba == FreeIndices(d)[0] && c.handle.length == BlockBytes(blocks)
              && c.table[c.handle.lba].fileSize == c.handle.length
              && c.table[c.handle.lba].allocState == FIRST_BLOCK
  {
    var fr := FreeIndices(d);
    var n := ChainLength(blocks);
    var size := BlockBytes(blocks);
    var name := StrNCopy(path, NAME_MAX);
    if fr == [] then
      Created(d, OutOfBounds, h0.(errno := ENOERR, lba := -1, offset := 0))
    else if !TocOk(hw, 0) then
      RankOfFree(d, 0);
      ChainedSlotFacts(d, n, n, size, name, fr[0]);
      Created(Chained(d, n, n, size, name), Return(0), Handle(ENOERR, fr[0], 0, size))
    else if fr[0] != 0 then
      var linked := Chained(d, n, n, size, name);
      Created(linked[fr[0] := FreedBack(linked[fr[0]])], Hang, h0)
    else
      var end := ChainEnd(hw, n, n, |fr|);
      RankOfFree(d, 0);
      ChainedSlotFacts(d, end, n, size, name, fr[0]);
      Created(Chained(d, end, n, size, name), Return(0), Handle(ENOERR, 0, 0, size))
  }

  /**
   * The create path of open, from the table d and the handle h0 it starts
   * from. A visible file of the same name gives ENOENT and a request for
   * more blocks than are free gives ENOSPC (after the handle's length has
   * been set), both returning 1 and leaving the table alone; otherwise the
   * allocation follows Allocation.
   */
  function CreateResult(d: seq<Entry>, path: seq<char>, blocks: nat, hw: Hardware, h0: Handle): (c: Created)
    ensures |c.table| == |d|
    ensures c.out == Return(1) ==> c.table == d && (c.handle.errno == ENOENT || c.handle.errno == ENOSPC)
    ensures Lookup(d, 0, 0, path) == -1 ==> c.handle.length == BlockBytes(blocks)
    ensures c.out == Return(0) ==>
              c.handle.errno == ENOERR && c.handle.offset == 0 && 0 <= c.handle.lba < |d|
              && c.table[c.handle.lba].fileSize == c.handle.length
  {
    if Lookup(d, 0, 0, path) != -1 then
      Created(d, Return(1), h0.(errno := ENOENT))
    else if blocks > |FreeIndices(d)| then
      Created(d, Return(1), h0.(errno := ENOSPC, length := BlockBytes(blocks)))
    else
      Allocation(d, path, blocks, hw, h0.(length := BlockBytes(blocks)))
  }

  /** The create path after the name and space checks pass, from what the allocation loop leaves. */
  lemma AllocatedCreate(d: seq<Entry>, r: seq<Entry>, path: seq<char>, blocks: nat, hw: Hardware, linked: nat,
                        firstIndex: int, hang: bool, commits: seq<seq<int>>, out: Outcome, h0: Handle, h: Handle)
    requires blocks <= |FreeIndices(d)| && h0.length == BlockBytes(blocks)
    requires AllocExit(d, hw, blocks, linked, firstIndex, hang, commits)
    requires var chained := Chained(d, linked, ChainLength(blocks), BlockBytes(blocks), StrNCopy(path, NAME_MAX));
             r == if hang then chained[firstIndex := FreedBack(chained[firstIndex])] else chained
    requires out == if hang then Hang else if firstIndex < 0 then OutOfBounds else Return(0)
    requires h == if hang then h0
                  else if firstIndex < 0 then h0.(errno := ENOERR, lba := firstIndex, offset := 0)
                  else Handle(ENOERR, firstIndex, 0, r[firstIndex].fileSize)
    ensures Created(r, out, h) == Allocation(d, path, blocks, hw, h0)
  {
    var fr := FreeIndices(d);
    if fr != [] {
      RankOfFree(d, 0);
    }
  }

  /**
   * The create path's rejections are exactly a visible file of the same
   * name and a request for more blocks than are free: they return 1 and
   * leave the table alone, with ENOENT and ENOSPC respectively.
   */
  lemma CreateRejects(d: seq<Entry>, path: seq<char>, blocks: nat, hw: Hardware, h0: Handle)
    ensures var c := CreateResult(d, path, blocks, hw, h0);
            (c.out == Return(1) <==> Lookup(d, 0, 0, path) != -1 || blocks > |FreeIndices(d)|)
            && (c.out == Return(1) ==> c.table == d)
            && (Lookup(d, 0, 0, path) != -1 ==> c.handle.errno == ENOENT)
            && (Lookup(d, 0, 0, path) == -1 && blocks > |FreeIndices(d)| ==>
                  c.handle == h0.(errno := ENOSPC, length := BlockBytes(blocks)))
  {
  }

  /**
   * When a create reports success on a name that fits the name field, the
   * handle names the new file's first slot and its size, and both a
   * lookup with status 0 and an enumeration with the same literal name
   * find that slot and only it.
   */
  lemma CreateThenFind(d: seq<Entry>, path: seq<char>, blocks: nat, hw: Hardware, h0: Handle)
    requires CreateResult(d, path, blocks, hw, h0).out == Return(0)
    requires 0 < |path| <= NAME_MAX
    requires StarIndex(path) == |path|
    ensures var c := CreateResult(d, path, blocks, hw, h0);
            0 <= c.handle.lba < |c.table| && c.handle.length == BlockBytes(blocks)
            && c.table[c.handle.lba].fileSize == c.handle.length
            && Lookup(c.table, 0, 0, path) == c.handle.lba
            && Enumerate(c.table, 0, EffectivePattern(path), -1) == [c.handle.lba]
  {
    var fr := FreeIndices(d);
    var n := ChainLength(blocks);
    var k := if !TocOk(hw, 0) then n else ChainEnd(hw, n, n, |fr|);
    CreatedIsOnlyHit(d, k, n, BlockBytes(blocks), path);
    assert EffectivePattern(path) == path;
    EnumerateIsHits(CreateResult(d, path, blocks, hw, h0).table, 0, path, -1);
  }
}
