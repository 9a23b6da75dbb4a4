/**
 * How find-first turns the caller's filter into the 20-byte search
 * pattern: the buffer is first filled with '?', then an empty filter is
 * terminated at position 19; otherwise the characters before the first
 * '*' are copied, a '*' pads the rest of the buffer with '?', and a
 * terminator is written right after what was copied or padded.
 */
module FindPattern {
  import opened BuTypes
  import opened PatternMatch

  /** Size of the compiled pattern buffer. */
  const PATTERN_SIZE: nat := 20

  /** Position of the first '*' in s, or |s| when there is none. */
  function StarIndex(s: seq<char>): (p: nat)
    ensures p <= |s|
    ensures forall i :: 0 <= i < p ==> s[i] != '*'
    ensures p < |s| ==> s[p] == '*'
  {
    if s == [] || s[0] == '*' then 0 else 1 + StarIndex(s[1..])
  }

  function Repeat(c: char, n: nat): (r: seq<char>)
    ensures |r| == n && forall i :: 0 <= i < n ==> r[i] == c
  {
    if n == 0 then [] else [c] + Repeat(c, n - 1)
  }

  /**
   * Byte i of the pattern buffer after compiling `filter` over a buffer
   * that held `prev`. Byte 19 is left alone when a short filter without
   * '*' is copied, since the '?' fill stops at 18.
   */
  function CompiledAt(prev: seq<char>, filter: seq<char>, i: nat): (c: char)
    requires |prev| == PATTERN_SIZE && i < PATTERN_SIZE
  {
    var p := StarIndex(filter);
    if filter == [] then (if i < 19 then '?' else NUL)
    else if i < p then filter[i]
    else if p < |filter| then '?'
    else if i == p then NUL
    else if i < 19 then '?'
    else prev[19]
  }

  /** The whole pattern buffer after compiling `filter`. */
  function CompiledBuffer(prev: seq<char>, filter: seq<char>): (b: seq<char>)
    requires |prev| == PATTERN_SIZE
    ensures |b| == PATTERN_SIZE
  {
    seq(PATTERN_SIZE, i requires 0 <= i < PATTERN_SIZE => CompiledAt(prev, filter, i))
  }

  /**
   * Compiling writes past the 20-byte buffer: always with a '*' (the
   * terminator lands at index 20 or later), and without one when the
   * filter has 20 characters or more.
   */
  predicate Overruns(filter: seq<char>) {
    filter != [] && (StarIndex(filter) < |filter| || |filter| >= PATTERN_SIZE)
  }

  /**
   * Reference definition of the pattern a lookup then compares with: 19
   * '?' for an empty filter; the part before '*' followed by '?' up to 20
   * characters; otherwise the filter itself, cut at 20 characters.
   */
  function EffectivePattern(filter: seq<char>): (pattern: seq<char>)
    ensures |pattern| <= PATTERN_SIZE
    ensures StarIndex(filter) < |filter| ==> |pattern| == PATTERN_SIZE
  {
    if filter == [] then Repeat('?', 19)
    else
      var p := StarIndex(filter);
      if p < |filter| then (filter[..p] + Repeat('?', PATTERN_SIZE))[..PATTERN_SIZE]
      else StrNCopy(filter, PATTERN_SIZE)
  }

  /** An empty filter leaves 19 '?' and a terminator, within the buffer. */
  lemma CompiledEmpty(prev: seq<char>)
    requires |prev| == PATTERN_SIZE
    ensures CompiledBuffer(prev, []) == Repeat('?', 19) + [NUL]
    ensures !Overruns([])
  {
    var b := CompiledBuffer(prev, []);
    forall i | 0 <= i < PATTERN_SIZE
      ensures b[i] == (Repeat('?', 19) + [NUL])[i]
    {
    }
  }

  /**
   * With a '*' at position p, the buffer holds the characters before it
   * and '?' up to the end, and the terminator goes past the buffer.
   */
  lemma CompiledStar(prev: seq<char>, filter: seq<char>)
    requires |prev| == PATTERN_SIZE
    requires StarIndex(filter) < |filter|
    ensures forall i :: 0 <= i < PATTERN_SIZE ==>
              CompiledBuffer(prev, filter)[i] == if i < StarIndex(filter) then filter[i] else '?'
    ensures Overruns(filter)
  {
  }

  /** A filter of fewer than 20 characters without '*' is copied and terminated within the buffer. */
  lemma CompiledLiteral(prev: seq<char>, filter: seq<char>)
    requires |prev| == PATTERN_SIZE
    requires filter != [] && StarIndex(filter) == |filter| && |filter| < PATTERN_SIZE
    ensures CompiledBuffer(prev, filter)[..|filter| + 1] == filter + [NUL]
    ensures !Overruns(filter)
  {
    var b := CompiledBuffer(prev, filter);
    forall i | 0 <= i <= |filter|
      ensures b[i] == (filter + [NUL])[i]
    {
    }
  }

  lemma {:induction false} CStrUpTo(buf: seq<char>, len: nat)
    requires len <= |buf|
    requires forall i :: 0 <= i < len ==> buf[i] != NUL
    requires len < |buf| ==> buf[len] == NUL
    ensures CStr(buf) == buf[..len]
  {
    if len > 0 {
      CStrUpTo(buf[1..], len - 1);
      assert buf[..len] == [buf[0]] + buf[1..][..len - 1];
    }
  }

  /** A lookup after find-first compares names with EffectivePattern(filter). */
  lemma CompiledPattern(prev: seq<char>, filter: seq<char>)
    requires |prev| == PATTERN_SIZE
    requires NUL !in filter
    ensures CStr(CompiledBuffer(prev, filter)) == EffectivePattern(filter)
  {
    var b := CompiledBuffer(prev, filter);
    var p := StarIndex(filter);
    if filter == [] {
      CStrUpTo(b, 19);
      assert b[..19] == Repeat('?', 19);
    } else if p < |filter| {
      CStrUpTo(b, PATTERN_SIZE);
      assert b == (filter[..p] + Repeat('?', PATTERN_SIZE))[..PATTERN_SIZE];
    } else if |filter| < PATTERN_SIZE {
      CStrUpTo(b, |filter|);
      assert b[..|filter|] == filter;
    } else {
      CStrUpTo(b, PATTERN_SIZE);
      assert b == filter[..PATTERN_SIZE];
    }
  }

  /**
   * A filter with a '*' finds every name of at most 20 characters that
   * starts with the part before the '*'.
   */
  lemma StarMatches(filter: seq<char>, name: seq<char>)
    requires StarIndex(filter) < |filter|
    requires StarIndex(filter) <= |name| <= PATTERN_SIZE
    requires name[..StarIndex(filter)] == filter[..StarIndex(filter)]
    ensures Match(name, EffectivePattern(filter))
  {
    var p := StarIndex(filter);
    var e := EffectivePattern(filter);
    var padded := filter[..p] + Repeat('?', PATTERN_SIZE);
    assert e == padded[..PATTERN_SIZE];
    forall i | 0 <= i < PATTERN_SIZE
      ensures e[i] == if i < p then filter[i] else '?'
    {
      if i < p {
        assert padded[i] == filter[..p][i];
      } else {
        assert padded[i] == Repeat('?', PATTERN_SIZE)[i - p];
      }
    }
    assert forall i :: 0 <= i < p ==> name[i] == name[..p][i];
    assert Positional(name, e);
    MatchIff(name, e);
  }

  /** "SAVE*" finds SAVE1, SAVEDATA and SAVE. */
  lemma WildcardExamples()
    ensures Match("SAVE1", EffectivePattern("SAVE*"))
    ensures Match("SAVEDATA", EffectivePattern("SAVE*"))
    ensures Match("SAVE", EffectivePattern("SAVE*"))
  {
    assert StarIndex("SAVE*") == 4;
    StarMatches("SAVE*", "SAVE1");
    StarMatches("SAVE*", "SAVEDATA");
    StarMatches("SAVE*", "SAVE");
  }

  /** A filter without '*' is a literal pattern: "SAVE1" does not find SAVE2. */
  lemma LiteralExample()
    ensures !Match("SAVE2", EffectivePattern("SAVE1"))
  {
    assert StarIndex("SAVE1") == 5;
    assert EffectivePattern("SAVE1") == "SAVE1";
    MatchIff("SAVE2", "SAVE1");
  }
}
