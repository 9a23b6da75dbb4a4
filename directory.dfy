/**
 * Specifications over one port's 15-slot directory table: which slots a
 * lookup sees, the order an enumeration returns them in, which slots are
 * free, and the shape of the chain the create path writes.
 */
module Directory {
  import opened BuTypes
  import opened PatternMatch

  /**
   * Whether a slot counts as a file during lookup depends on the device
   * status flag: status 0 sees the first-block code the create path writes
   * (0x51), any other status sees the code 0xa1. Only a first block is
   * ever visible; under status 0 it is in use, while a 0xa1 slot is one
   * the free test counts as free.
   */
  function Visible(e: Entry, status: int): (r: bool)
    ensures r ==> e.allocState & 0x0f == 1
    ensures r && status == 0 ==> !IsFree(e.allocState)
    ensures r && status != 0 ==> IsFree(e.allocState)
  {
    if status == 0 then e.allocState == FIRST_BLOCK else e.allocState == FIRST_NONZERO_STATUS
  }

  /** A slot a lookup with this status and pattern stops at. */
  function Hit(e: Entry, status: int, pattern: seq<char>): (r: bool)
    ensures r ==> Visible(e, status) && 0 < |e.name| <= |pattern|
  {
    Visible(e, status) && |e.name| > 0 && Match(e.name, pattern)
  }

  /** The first slot at or after `start` that is a hit, or -1 when there is none. */
  function Lookup(d: seq<Entry>, status: int, start: nat, pattern: seq<char>): (r: int)
    decreases |d| - start
    ensures r == -1 || (start <= r < |d| && Hit(d[r], status, pattern))
    ensures r == -1 ==> forall j :: start <= j < |d| ==> !Hit(d[j], status, pattern)
    ensures r != -1 ==> forall j :: start <= j < r ==> !Hit(d[j], status, pattern)
  {
    if start >= |d| then -1
    else if Hit(d[start], status, pattern) then start
    else Lookup(d, status, start + 1, pattern)
  }

  /** Reference definition: the hits at or after `start`, in index order. */
  function Hits(d: seq<Entry>, status: int, pattern: seq<char>, start: nat): (h: seq<int>)
    decreases |d| - start
    ensures forall k :: 0 <= k < |h| ==> start <= h[k] < |d| && Hit(d[h[k]], status, pattern)
  {
    if start >= |d| then []
    else (if Hit(d[start], status, pattern) then [start] else []) + Hits(d, status, pattern, start + 1)
  }

  lemma {:induction false} HitsSpec(d: seq<Entry>, status: int, pattern: seq<char>, start: nat)
    decreases |d| - start
    ensures forall i :: i in Hits(d, status, pattern, start) <==> start <= i < |d| && Hit(d[i], status, pattern)
    ensures forall k, l :: 0 <= k < l < |Hits(d, status, pattern, start)| ==>
              Hits(d, status, pattern, start)[k] < Hits(d, status, pattern, start)[l]
  {
    if start < |d| {
      HitsSpec(d, status, pattern, start + 1);
      var t := Hits(d, status, pattern, start + 1);
      var h := Hits(d, status, pattern, start);
      if Hit(d[start], status, pattern) {
        assert h == [start] + t;
        forall k, l | 0 <= k < l < |h|
          ensures h[k] < h[l]
        {
          assert h[l] == t[l - 1] && t[l - 1] in t;
          if k > 0 {
            assert h[k] == t[k - 1];
          }
        }
      } else {
        assert h == t;
      }
    }
  }

  /** No hits in [start, stop) means enumerating from either gives the same list. */
  lemma {:induction false} HitsSkip(d: seq<Entry>, status: int, pattern: seq<char>, start: nat, stop: nat)
    requires start <= stop
    requires forall j :: start <= j < stop && j < |d| ==> !Hit(d[j], status, pattern)
    decreases stop - start
    ensures Hits(d, status, pattern, start) == Hits(d, status, pattern, stop)
  {
    if start < stop && start < |d| {
      HitsSkip(d, status, pattern, start + 1, stop);
    }
  }

  /**
   * The indices a find-first / find-next sequence returns when the
   * shared cursor starts at `cursor`: each call looks from cursor + 1
   * and moves the cursor to what it found, until a call finds nothing.
   */
  function Enumerate(d: seq<Entry>, status: int, pattern: seq<char>, cursor: int): (e: seq<int>)
    requires -1 <= cursor
    decreases |d| - cursor
    ensures forall k :: 0 <= k < |e| ==> cursor < e[k] < |d| && Hit(d[e[k]], status, pattern)
  {
    var r := Lookup(d, status, cursor + 1, pattern);
    if r == -1 then [] else [r] + Enumerate(d, status, pattern, r)
  }

  /** Enumeration returns exactly the hits after the cursor, each once, in increasing index order. */
  lemma {:induction false} EnumerateIsHits(d: seq<Entry>, status: int, pattern: seq<char>, cursor: int)
    requires -1 <= cursor
    decreases |d| - cursor
    ensures Enumerate(d, status, pattern, cursor) == Hits(d, status, pattern, cursor + 1)
  {
    var r := Lookup(d, status, cursor + 1, pattern);
    if r == -1 {
      HitsSkip(d, status, pattern, cursor + 1, if cursor + 1 <= |d| then |d| else cursor + 1);
    } else {
      HitsSkip(d, status, pattern, cursor + 1, r);
      assert Hits(d, status, pattern, r) == [r] + Hits(d, status, pattern, r + 1);
      EnumerateIsHits(d, status, pattern, r);
    }
  }

  // ---------------------------------------------------------------- free slots

  /** The free slots of a table, in index order. */
  function FreeIndices(d: seq<Entry>): (fr: seq<int>)
    ensures |fr| <= |d|
    ensures forall k :: 0 <= k < |fr| ==> 0 <= fr[k] < |d|
  {
    if d == [] then []
    else FreeIndices(d[..|d| - 1]) + (if IsFree(d[|d| - 1].allocState) then [|d| - 1] else [])
  }

  /** The free list holds every free slot, nothing else, in strictly increasing order. */
  lemma {:induction false} FreeIndicesSpec(d: seq<Entry>)
    ensures forall k :: 0 <= k < |FreeIndices(d)| ==>
              0 <= FreeIndices(d)[k] < |d| && IsFree(d[FreeIndices(d)[k]].allocState)
    ensures forall k, l :: 0 <= k < l < |FreeIndices(d)| ==> FreeIndices(d)[k] < FreeIndices(d)[l]
    ensures forall i :: 0 <= i < |d| && IsFree(d[i].allocState) ==> i in FreeIndices(d)
  {
    if d != [] {
      var d' := d[..|d| - 1];
      FreeIndicesSpec(d');
      var pre := FreeIndices(d');
      assert forall k :: 0 <= k < |pre| ==> d'[pre[k]] == d[pre[k]];
      forall i | 0 <= i < |d| - 1 && IsFree(d[i].allocState)
        ensures i in pre
      {
        assert d'[i] == d[i];
      }
    }
  }

  /** How many free slots come before slot i. */
  function Rank(d: seq<Entry>, i: nat): (k: nat)
    requires i <= |d|
    ensures k <= i
  {
    |FreeIndices(d[..i])|
  }

  lemma FreeIndicesSnoc(d: seq<Entry>, i: nat)
    requires i < |d|
    ensures FreeIndices(d[..i + 1]) == FreeIndices(d[..i]) + (if IsFree(d[i].allocState) then [i] else [])
  {
    assert d[..i + 1][..i] == d[..i];
  }

  /** The free slots of a prefix are a prefix of the free slots. */
  lemma {:induction false} FreeIndicesPrefix(d: seq<Entry>, i: nat, j: nat)
    requires i <= j <= |d|
    decreases j - i
    ensures Rank(d, i) <= Rank(d, j)
    ensures FreeIndices(d[..j])[..Rank(d, i)] == FreeIndices(d[..i])
  {
    if i < j {
      FreeIndicesPrefix(d, i, j - 1);
      FreeIndicesSnoc(d, j - 1);
    }
  }

  /** A free slot's rank is its position in the free list. */
  lemma RankAt(d: seq<Entry>, i: nat)
    requires i < |d| && IsFree(d[i].allocState)
    ensures Rank(d, i) < |FreeIndices(d)| && FreeIndices(d)[Rank(d, i)] == i
  {
    FreeIndicesSnoc(d, i);
    FreeIndicesPrefix(d, i + 1, |d|);
    assert d[..|d|] == d;
  }

  /** The k-th free slot has rank k. */
  lemma RankOfFree(d: seq<Entry>, k: nat)
    requires k < |FreeIndices(d)|
    ensures 0 <= FreeIndices(d)[k] < |d| && IsFree(d[FreeIndices(d)[k]].allocState)
    ensures Rank(d, FreeIndices(d)[k]) == k
  {
    var fr := FreeIndices(d);
    FreeIndicesSpec(d);
    RankAt(d, fr[k]);
  }

  lemma RankFull(d: seq<Entry>)
    ensures Rank(d, |d|) == |FreeIndices(d)|
  {
    assert d[..|d|] == d;
  }

  // ---------------------------------------------------------------- the chain

  /** Code of the k-th chained slot of a file of n blocks (slots past n are tagged last too). */
  function ChainTag(k: nat, n: nat): (code: bv8)
    ensures !IsFree(code) && code & 0xf0 == 0x50
  {
    if k == 0 then FIRST_BLOCK else if k + 1 < n then MIDDLE_BLOCK else LAST_BLOCK
  }

  /**
   * Slot i once the first c free slots of d have been linked into a file
   * of n blocks: the first carries the code 0x51, the size and the name;
   * each one links to the next free slot; the c-th ends the chain (-1)
   * once c has reached n, and keeps its old link while the chain is open.
   * Every other slot is as it was.
   */
  function ChainedSlot(d: seq<Entry>, i: nat, c: nat, n: nat, size: int, name: seq<char>): (e: Entry)
    requires i < |d|
  {
    var fr := FreeIndices(d);
    var k := Rank(d, i);
    if !IsFree(d[i].allocState) || k >= c then d[i]
    else
      d[i].(allocState := ChainTag(k, n),
            fileSize := if k == 0 then size else d[i].fileSize,
            name := if k == 0 then name else d[i].name,
            nextBlock := if k + 1 < c && k + 1 < |fr| then fr[k + 1]
                         else if c >= n then -1 else d[i].nextBlock)
  }

  /** The whole table once the first c free slots have been linked. */
  function Chained(d: seq<Entry>, c: nat, n: nat, size: int, name: seq<char>): (r: seq<Entry>)
    ensures |r| == |d|
  {
    seq(|d|, i requires 0 <= i < |d| => ChainedSlot(d, i, c, n, size, name))
  }

  /** The slot indices met by following nextBlock from i, at most `steps` of them. */
  function Walk(r: seq<Entry>, i: int, steps: nat): (w: seq<int>)
    decreases steps
    ensures |w| <= steps && forall k :: 0 <= k < |w| ==> 0 <= w[k] < |r|
  {
    if steps == 0 || !(0 <= i < |r|) then [] else [i] + Walk(r, r[i].nextBlock, steps - 1)
  }

  lemma {:induction false} WalkFrom(d: seq<Entry>, c: nat, n: nat, size: int, name: seq<char>, k: nat)
    requires 1 <= n <= c <= |FreeIndices(d)|
    requires k < c
    decreases c - k
    ensures Walk(Chained(d, c, n, size, name), FreeIndices(d)[k], c - k + 1) == FreeIndices(d)[k..c]
  {
    var fr := FreeIndices(d);
    var r := Chained(d, c, n, size, name);
    RankOfFree(d, k);
    assert r[fr[k]] == ChainedSlot(d, fr[k], c, n, size, name);
    if k + 1 < c {
      assert r[fr[k]].nextBlock == fr[k + 1];
      WalkFrom(d, c, n, size, name, k + 1);
      assert fr[k..c] == [fr[k]] + fr[k + 1..c];
    } else {
      assert r[fr[k]].nextBlock == -1;
      assert fr[k..c] == [fr[k]];
    }
  }

  /**
   * Following the links from the first chained slot visits exactly the
   * first c free slots, in index order, and then reaches the end marker;
   * the first carries 0x51, the size and the name, and the codes of the
   * others follow ChainTag.
   */
  lemma ChainIsLinkedList(d: seq<Entry>, c: nat, n: nat, size: int, name: seq<char>)
    requires 1 <= n <= c <= |FreeIndices(d)|
    ensures var fr := FreeIndices(d);
            var r := Chained(d, c, n, size, name);
            Walk(r, fr[0], c + 1) == fr[..c]
            && r[fr[c - 1]].nextBlock == -1
            && r[fr[0]].allocState == FIRST_BLOCK
            && r[fr[0]].fileSize == size && r[fr[0]].name == name
            && (forall k :: 0 < k < c ==> r[fr[k]].allocState == ChainTag(k, n))
  {
    var fr := FreeIndices(d);
    var r := Chained(d, c, n, size, name);
    WalkFrom(d, c, n, size, name, 0);
    RankOfFree(d, 0);
    RankOfFree(d, c - 1);
    forall k | 0 < k < c
      ensures r[fr[k]].allocState == ChainTag(k, n)
    {
      RankOfFree(d, k);
    }
  }

  /** Linking never touches a slot that was not free, nor a free slot past the first c. */
  lemma ChainedFrame(d: seq<Entry>, c: nat, n: nat, size: int, name: seq<char>, i: nat)
    requires i < |d|
    requires !IsFree(d[i].allocState) || Rank(d, i) >= c
    ensures Chained(d, c, n, size, name)[i] == d[i]
  {
  }

  /** Slot i is among the first c free slots, the ones a create links. */
  predicate Linked(d: seq<Entry>, i: nat, c: nat)
    requires i < |d|
  {
    IsFree(d[i].allocState) && Rank(d, i) < c
  }

  lemma ChainedSlotFacts(d: seq<Entry>, c: nat, n: nat, size: int, name: seq<char>, i: nat)
    requires i < |d|
    ensures var e := Chained(d, c, n, size, name)[i];
            (!Linked(d, i, c) ==> e == d[i])
            && (Linked(d, i, c) ==> e.allocState == ChainTag(Rank(d, i), n) && !IsFree(e.allocState))
            && (Linked(d, i, c) && Rank(d, i) == 0 ==> e.fileSize == size && e.name == name)
  {
  }

  /** Linking c slots uses up exactly the first c free slots: the rest stay free, in order. */
  lemma ChainedConsumesFree(d: seq<Entry>, c: nat, n: nat, size: int, name: seq<char>)
    requires c <= |FreeIndices(d)|
    ensures FreeIndices(Chained(d, c, n, size, name)) == FreeIndices(d)[c..]
  {
    var r := Chained(d, c, n, size, name);
    forall i | 0 <= i < |d|
      ensures IsFree(r[i].allocState) <==> IsFree(d[i].allocState) && Rank(d, i) >= c
    {
      ChainedSlotFacts(d, c, n, size, name, i);
    }
    FreeAfterLinking(d, r, c, |d|);
    assert r[..|d|] == r;
    RankFull(d);
  }

  /**
   * r is d with the first c free slots taken: the free slots of r's first
   * j entries are those of d's, less the first c.
   */
  lemma {:induction false} FreeAfterLinking(d: seq<Entry>, r: seq<Entry>, c: nat, j: nat)
    requires |r| == |d| && c <= |FreeIndices(d)| && j <= |d|
    requires forall i :: 0 <= i < |d| ==> (IsFree(r[i].allocState) <==> IsFree(d[i].allocState) && Rank(d, i) >= c)
    ensures Rank(d, j) <= |FreeIndices(d)|
    ensures FreeIndices(r[..j]) == FreeIndices(d)[Min(c, Rank(d, j))..Rank(d, j)]
  {
    if j == 0 {
      assert r[..0] == [] && d[..0] == [];
    } else {
      FreeAfterLinking(d, r, c, j - 1);
      FreeAfterLinkingStep(d, r, c, j - 1);
    }
  }

  /** One more entry of r: it is free exactly when d's is free and not among the first c. */
  lemma FreeAfterLinkingStep(d: seq<Entry>, r: seq<Entry>, c: nat, i: nat)
    requires |r| == |d| && c <= |FreeIndices(d)| && i < |d|
    requires IsFree(r[i].allocState) <==> IsFree(d[i].allocState) && Rank(d, i) >= c
    requires Rank(d, i) <= |FreeIndices(d)|
    requires FreeIndices(r[..i]) == FreeIndices(d)[Min(c, Rank(d, i))..Rank(d, i)]
    ensures Rank(d, i + 1) <= |FreeIndices(d)|
    ensures FreeIndices(r[..i + 1]) == FreeIndices(d)[Min(c, Rank(d, i + 1))..Rank(d, i + 1)]
  {
    var fr := FreeIndices(d);
    var rk := Rank(d, i);
    FreeIndicesPrefix(d, i + 1, |d|);
    RankFull(d);
    FreeIndicesSnoc(r, i);
    FreeIndicesSnoc(d, i);
    if !IsFree(d[i].allocState) {
      assert Rank(d, i + 1) == rk && FreeIndices(r[..i + 1]) == FreeIndices(r[..i]);
    } else if rk < c {
      assert Rank(d, i + 1) == rk + 1 && FreeIndices(r[..i + 1]) == FreeIndices(r[..i]);
    } else {
      RankAt(d, i);
      assert Rank(d, i + 1) == rk + 1 && FreeIndices(r[..i + 1]) == fr[c..rk] + [fr[rk]];
      SliceSnoc(fr, c, rk);
    }
  }

  /** Extending a slice by one element. */
  lemma SliceSnoc(s: seq<int>, a: nat, b: nat)
    requires a <= b < |s|
    ensures s[a..b + 1] == s[a..b] + [s[b]]
  {
    assert forall k :: 0 <= k < b + 1 - a ==> s[a..b + 1][k] == (s[a..b] + [s[b]])[k];
  }

  function Min(a: int, b: int): (m: int)
    ensures m <= a && m <= b && (m == a || m == b)
  {
    if a < b then a else b
  }

  /**
   * After a create whose name check found nothing, with status 0 the
   * newly written first slot is the only slot a lookup of the same name
   * hits, and a lookup from 0 returns it.
   */
  lemma CreatedIsOnlyHit(d: seq<Entry>, c: nat, n: nat, size: int, path: seq<char>)
    requires 1 <= c <= |FreeIndices(d)|
    requires 0 < |path| <= NAME_MAX
    requires Lookup(d, 0, 0, path) == -1
    ensures var r := Chained(d, c, n, size, StrNCopy(path, NAME_MAX));
            var first := FreeIndices(d)[0];
            (forall i :: 0 <= i < |d| ==> (Hit(r[i], 0, path) <==> i == first))
            && Lookup(r, 0, 0, path) == first
            && Hits(r, 0, path, 0) == [first]
            && r[first].fileSize == size
  {
    var fr := FreeIndices(d);
    var r := Chained(d, c, n, size, StrNCopy(path, NAME_MAX));
    RankOfFree(d, 0);
    MatchSelf(path);
    forall i | 0 <= i < |d|
      ensures Hit(r[i], 0, path) <==> i == fr[0]
    {
      ChainedSlotFacts(d, c, n, size, StrNCopy(path, NAME_MAX), i);
      if Linked(d, i, c) {
        RankAt(d, i);
      }
    }
    OnlyHit(r, path, fr[0]);
    ChainedSlotFacts(d, c, n, size, StrNCopy(path, NAME_MAX), fr[0]);
  }

  lemma OnlyHit(r: seq<Entry>, pattern: seq<char>, first: int)
    requires 0 <= first < |r|
    requires forall i :: 0 <= i < |r| ==> (Hit(r[i], 0, pattern) <==> i == first)
    ensures Lookup(r, 0, 0, pattern) == first
    ensures Hits(r, 0, pattern, 0) == [first]
  {
    HitsSkip(r, 0, pattern, 0, first);
    HitsSkip(r, 0, pattern, first + 1, |r|);
  }

  /** The bitmap handed to the directory write once c slots are linked: 0x51, then 0x52, 0 elsewhere. */
  function BitmapSlot(d: seq<Entry>, i: nat, c: nat): (mark: int)
    requires i < |d|
  {
    if IsFree(d[i].allocState) && Rank(d, i) < c then
      (if Rank(d, i) == 0 then FIRST_BLOCK as int else MIDDLE_BLOCK as int)
    else 0
  }

  function Bitmap(d: seq<Entry>, c: nat): (b: seq<int>)
    ensures |b| == |d|
  {
    seq(|d|, i requires 0 <= i < |d| => BitmapSlot(d, i, c))
  }

  /** The bitmap marks exactly the chained slots, the first with 0x51 and the others with 0x52. */
  lemma BitmapMarksChain(d: seq<Entry>, c: nat, i: nat)
    requires c <= |FreeIndices(d)| && i < |d|
    ensures var fr := FreeIndices(d);
            (Bitmap(d, c)[i] != 0 <==> i in fr[..c])
            && (c > 0 ==> Bitmap(d, c)[fr[0]] == FIRST_BLOCK as int)
            && (forall k :: 0 < k < c ==> Bitmap(d, c)[fr[k]] == MIDDLE_BLOCK as int)
  {
    var fr := FreeIndices(d);
    if IsFree(d[i].allocState) {
      RankAt(d, i);
    }
    if i in fr[..c] {
      var k :| 0 <= k < c && fr[k] == i;
      RankOfFree(d, k);
    }
    if c > 0 {
      RankOfFree(d, 0);
    }
    forall k | 0 < k < c
      ensures Bitmap(d, c)[fr[k]] == MIDDLE_BLOCK as int
    {
      RankOfFree(d, k);
    }
  }

  /**
   * One step of the allocation loop: linking the free slot of rank c tags
   * it and marks it in the bitmap, makes the slot of rank c - 1 point at
   * it, and leaves every other slot and bitmap entry as it was.
   */
  lemma ChainedStep(d: seq<Entry>, c: nat, n: nat, size: int, name: seq<char>, index: nat)
    requires index < |d| && IsFree(d[index].allocState) && Rank(d, index) == c
    ensures c < |FreeIndices(d)| && FreeIndices(d)[c] == index
    ensures ChainedSlot(d, index, c, n, size, name) == d[index]
    ensures ChainedSlot(d, index, c + 1, n, size, name)
              == d[index].(allocState := ChainTag(c, n),
                           fileSize := if c == 0 then size else d[index].fileSize,
                           name := if c == 0 then name else d[index].name,
                           nextBlock := if c + 1 >= n then -1 else d[index].nextBlock)
    ensures BitmapSlot(d, index, c) == 0
    ensures BitmapSlot(d, index, c + 1) == if c == 0 then FIRST_BLOCK as int else MIDDLE_BLOCK as int
    ensures c > 0 ==>
              0 <= FreeIndices(d)[c - 1] < index
              && ChainedSlot(d, FreeIndices(d)[c - 1], c + 1, n, size, name)
                 == ChainedSlot(d, FreeIndices(d)[c - 1], c, n, size, name).(nextBlock := index)
              && BitmapSlot(d, FreeIndices(d)[c - 1], c + 1) == BitmapSlot(d, FreeIndices(d)[c - 1], c)
    ensures forall i :: 0 <= i < |d| && i != index && (c == 0 || i != FreeIndices(d)[c - 1]) ==>
              ChainedSlot(d, i, c + 1, n, size, name) == ChainedSlot(d, i, c, n, size, name)
              && BitmapSlot(d, i, c + 1) == BitmapSlot(d, i, c)
  {
    RankAt(d, index);
    FreeIndicesSpec(d);
    if c > 0 {
      RankOfFree(d, c - 1);
    }
    ChainedOthers(d, c, n, size, name, index);
  }

  /** Linking slot index changes no slot but index and the one linked before it. */
  lemma ChainedOthers(d: seq<Entry>, c: nat, n: nat, size: int, name: seq<char>, index: nat)
    requires index < |d| && IsFree(d[index].allocState) && Rank(d, index) == c
    requires c < |FreeIndices(d)| && FreeIndices(d)[c] == index
    requires c > 0 ==> 0 <= FreeIndices(d)[c - 1] < index
    ensures forall i :: 0 <= i < |d| && i != index && (c == 0 || i != FreeIndices(d)[c - 1]) ==>
              ChainedSlot(d, i, c + 1, n, size, name) == ChainedSlot(d, i, c, n, size, name)
              && BitmapSlot(d, i, c + 1) == BitmapSlot(d, i, c)
  {
    var fr := FreeIndices(d);
    forall i | 0 <= i < |d| && i != index && (c == 0 || i != fr[c - 1])
      ensures ChainedSlot(d, i, c + 1, n, size, name) == ChainedSlot(d, i, c, n, size, name)
      ensures BitmapSlot(d, i, c + 1) == BitmapSlot(d, i, c)
    {
      if IsFree(d[i].allocState) {
        RankAt(d, i);
      }
    }
  }

  /**
   * The same step on whole tables: the table with c + 1 slots linked is
   * the one with c linked, with the previous slot pointing at index and
   * index tagged; the bitmap gains the mark of index.
   */
  lemma ChainedNext(d: seq<Entry>, c: nat, n: nat, size: int, name: seq<char>, index: nat)
    requires index < |d| && IsFree(d[index].allocState) && Rank(d, index) == c
    ensures c < |FreeIndices(d)| && FreeIndices(d)[c] == index
    ensures c > 0 ==> 0 <= FreeIndices(d)[c - 1] < index
    ensures var t := Chained(d, c, n, size, name);
            var linked := if c == 0 then t else t[FreeIndices(d)[c - 1] := t[FreeIndices(d)[c - 1]].(nextBlock := index)];
            Chained(d, c + 1, n, size, name)
              == linked[index := t[index].(allocState := ChainTag(c, n),
                                           fileSize := if c == 0 then size else t[index].fileSize,
                                           name := if c == 0 then name else t[index].name,
                                           nextBlock := if c + 1 >= n then -1 else t[index].nextBlock)]
    ensures Bitmap(d, c)[index] == 0
    ensures Bitmap(d, c + 1) == Bitmap(d, c)[index := if c == 0 then FIRST_BLOCK as int else MIDDLE_BLOCK as int]
  {
    ChainedStep(d, c, n, size, name, index);
    var t := Chained(d, c, n, size, name);
    var linked := if c == 0 then t else t[FreeIndices(d)[c - 1] := t[FreeIndices(d)[c - 1]].(nextBlock := index)];
    var r := linked[index := t[index].(allocState := ChainTag(c, n),
                                       fileSize := if c == 0 then size else t[index].fileSize,
                                       name := if c == 0 then name else t[index].name,
                                       nextBlock := if c + 1 >= n then -1 else t[index].nextBlock)];
    assert forall i :: 0 <= i < |d| ==> Chained(d, c + 1, n, size, name)[i] == r[i];
  }
}
