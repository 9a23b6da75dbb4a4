/**
 * The wildcard comparison the driver uses for lookups: position by
 * position, '?' in the pattern stands for any one character, and once the
 * name is exhausted only the single pattern character at that position is
 * looked at (it must be the end of the pattern or '?').
 */
module PatternMatch {

  /** The comparison as the driver walks it, one name character at a time. */
  function Match(name: seq<char>, pattern: seq<char>): (r: bool)
    ensures r ==> |name| <= |pattern|
    ensures r && |name| < |pattern| ==> pattern[|name|] == '?'
  {
    if name == [] then
      pattern == [] || pattern[0] == '?'
    else
      pattern != [] && (pattern[0] == '?' || pattern[0] == name[0]) && Match(name[1..], pattern[1..])
  }

  /** Every name position is matched, and the pattern ends or holds '?' right after the name. */
  ghost predicate Positional(name: seq<char>, pattern: seq<char>) {
    |pattern| >= |name|
    && (forall i :: 0 <= i < |name| ==> pattern[i] == '?' || pattern[i] == name[i])
    && (|pattern| == |name| || pattern[|name|] == '?')
  }

  lemma {:induction false} MatchIff(name: seq<char>, pattern: seq<char>)
    ensures Match(name, pattern) <==> Positional(name, pattern)
  {
    if name != [] && pattern != [] {
      MatchIff(name[1..], pattern[1..]);
      if Positional(name, pattern) {
        assert forall i :: 0 <= i < |name| - 1 ==> pattern[1..][i] == pattern[i + 1] && name[1..][i] == name[i + 1];
      }
      if Positional(name[1..], pattern[1..]) && (pattern[0] == '?' || pattern[0] == name[0]) {
        forall i | 0 <= i < |name|
          ensures pattern[i] == '?' || pattern[i] == name[i]
        {
          if i > 0 {
            assert pattern[1..][i - 1] == pattern[i] && name[1..][i - 1] == name[i];
          }
        }
      }
    }
  }

  /** The matcher never looks past position |name| of the pattern. */
  lemma MatchLocal(name: seq<char>, pattern: seq<char>)
    ensures var k := if |pattern| <= |name| + 1 then |pattern| else |name| + 1;
            Match(name, pattern) == Match(name, pattern[..k])
  {
    var k := if |pattern| <= |name| + 1 then |pattern| else |name| + 1;
    MatchIff(name, pattern);
    MatchIff(name, pattern[..k]);
  }

  /** A name matches itself used as a pattern. */
  lemma {:induction false} MatchSelf(name: seq<char>)
    ensures Match(name, name)
  {
    if name != [] {
      MatchSelf(name[1..]);
    }
  }

  /**
   * The trailing check is not exhaustive: after a name, a '?' at the next
   * pattern position lets any further pattern characters through.
   */
  lemma TrailingUnchecked(name: seq<char>, tail: seq<char>)
    ensures Match(name, name + ['?'] + tail)
  {
    var p := name + ['?'] + tail;
    assert p[|name|] == '?';
    assert forall i :: 0 <= i < |name| ==> p[i] == name[i];
    MatchIff(name, p);
  }

  lemma MatchExamples()
    ensures Match("ABC", "A?C")
    ensures !Match("ABCD", "A?C")
    ensures !Match("AB", "A?C")
    ensures Match("AB", "AB?X")
    ensures !Match("SAVE2", "SAVE1")
  {
    MatchIff("ABC", "A?C");
    MatchIff("ABCD", "A?C");
    MatchIff("AB", "A?C");
    MatchIff("AB", "AB?X");
    MatchIff("SAVE2", "SAVE1");
  }
}
