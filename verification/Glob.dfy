/** Wildcard patterns over strings: what a pattern means, and the greedy
    leftmost search that decides it. */
module Glob {
  import opened Text

  /** The literal parts of a pattern with one chosen string for each `*`. */
  ghost function Weave(parts: seq<string>, fills: seq<string>): string
    requires |parts| == |fills| + 1
    decreases |parts|
  {
    if fills == [] then parts[0]
    else parts[0] + fills[0] + Weave(parts[1..], fills[1..])
  }

  ghost predicate Fills(parts: seq<string>, fills: seq<string>, s: string) {
    |parts| == |fills| + 1 && Weave(parts, fills) == s
  }

  ghost predicate Matches(parts: seq<string>, s: string) {
    exists fills :: Fills(parts, fills, s)
  }

  /** A pattern means every string some choice of substrings makes of it. */
  ghost predicate Means(pattern: string, s: string) {
    Matches(Split(pattern, '*'), s)
  }

  ghost predicate MatchesAfter(parts: seq<string>, s: string, i: int) {
    0 <= i <= |s| && Matches(parts, s[i..])
  }

  /** What is left to match once a `*` has been passed. */
  ghost predicate StarThen(parts: seq<string>, s: string) {
    exists i :: MatchesAfter(parts, s, i)
  }

  lemma StarAbsorbs(parts: seq<string>, s: string, i: nat)
    requires i <= |s| && StarThen(parts, s[i..])
    ensures StarThen(parts, s)
  {
    var j :| MatchesAfter(parts, s[i..], j);
    assert s[i..][j..] == s[i + j..];
    assert MatchesAfter(parts, s, i + j);
  }

  lemma StarLast(part: string, s: string)
    ensures StarThen([part], s) <==> HasSuffix(s, part)
  {
    if StarThen([part], s) {
      var i :| MatchesAfter([part], s, i);
      var fills :| Fills([part], fills, s[i..]);
      assert fills == [];
    }
    if HasSuffix(s, part) {
      var i := |s| - |part|;
      assert Fills([part], [], s[i..]);
      assert MatchesAfter([part], s, i);
    }
  }

  /** The first part is anchored at the front. */
  lemma AnchoredFirst(parts: seq<string>, s: string)
    requires |parts| > 1
    ensures Matches(parts, s) <==> parts[0] <= s && StarThen(parts[1..], s[|parts[0]|..])
  {
    var p := parts[0];
    if Matches(parts, s) {
      var fills :| Fills(parts, fills, s);
      var rest := Weave(parts[1..], fills[1..]);
      assert s == p + (fills[0] + rest);
      var s' := s[|p|..];
      assert s' == fills[0] + rest;
      assert Fills(parts[1..], fills[1..], s'[|fills[0]|..]);
      assert MatchesAfter(parts[1..], s', |fills[0]|);
    }
    if p <= s && StarThen(parts[1..], s[|p|..]) {
      var s' := s[|p|..];
      var i :| MatchesAfter(parts[1..], s', i);
      var fills :| Fills(parts[1..], fills, s'[i..]);
      var all := [s'[..i]] + fills;
      assert all[1..] == fills;
      assert s == p + s'[..i] + s'[i..];
      assert Fills(parts, all, s);
    }
  }

  lemma StarNext(parts: seq<string>, s: string, j: nat)
    requires |parts| > 1 && MatchesAfter(parts, s, j)
    ensures At(s, parts[0], j) && StarThen(parts[1..], s[j + |parts[0]|..])
  {
    var p := parts[0];
    AnchoredFirst(parts, s[j..]);
    assert s[j..j + |p|] == s[j..][..|p|];
    assert s[j..][|p|..] == s[j + |p|..];
  }

  lemma StarTake(parts: seq<string>, s: string, i: nat)
    requires |parts| > 1 && At(s, parts[0], i) && StarThen(parts[1..], s[i + |parts[0]|..])
    ensures StarThen(parts, s)
  {
    var p := parts[0];
    assert s[i..][..|p|] == s[i..i + |p|];
    assert s[i..][|p|..] == s[i + |p|..];
    AnchoredFirst(parts, s[i..]);
    assert MatchesAfter(parts, s, i);
  }

  /** Taking the leftmost occurrence of a part never loses a match. */
  lemma LeftmostSuffices(parts: seq<string>, s: string)
    requires |parts| > 1
    ensures var i := Index(s, parts[0]);
            StarThen(parts, s) <==> i >= 0 && StarThen(parts[1..], s[i + |parts[0]|..])
  {
    var p := parts[0];
    var i := Index(s, p);
    if StarThen(parts, s) {
      var j :| MatchesAfter(parts, s, j);
      StarNext(parts, s, j);
      assert i <= j;
      assert s[j + |p|..] == s[i + |p|..][j - i..];
      StarAbsorbs(parts[1..], s[i + |p|..], j - i);
    }
    if i >= 0 && StarThen(parts[1..], s[i + |p|..]) {
      StarTake(parts, s, i);
    }
  }

  /** Greedy matching is exact. */
  method GlobMatch(pattern: string, s: string) returns (ok: bool)
    ensures ok <==> Means(pattern, s)
  {
    var parts := Split(pattern, '*');
    if |parts| == 1 {
      SplitJoin(pattern, '*');
      ExactOnly(parts[0], s);
      return pattern == s;
    }
    AnchoredFirst(parts, s);
    if !(parts[0] <= s) {
      return false;
    }
    var rest := s[|parts[0]|..];
    for k := 1 to |parts| - 1
      invariant Means(pattern, s) <==> StarThen(parts[k..], rest)
    {
      assert parts[k..][1..] == parts[k + 1..];
      LeftmostSuffices(parts[k..], rest);
      var i := Index(rest, parts[k]);
      if i < 0 {
        return false;
      }
      rest := rest[i + |parts[k]|..];
    }
    assert parts[|parts| - 1..] == [parts[|parts| - 1]];
    StarLast(parts[|parts| - 1], rest);
    return HasSuffix(rest, parts[|parts| - 1]);
  }

  lemma ExactOnly(part: string, s: string)
    ensures Matches([part], s) <==> s == part
  {
    if Matches([part], s) {
      var fills :| Fills([part], fills, s);
      assert fills == [];
    }
    if s == part {
      assert Fills([part], [], s);
    }
  }

  // ----- what a pattern pins down

  lemma {:induction false} WeaveEnds(parts: seq<string>, fills: seq<string>)
    requires |parts| == |fills| + 1
    ensures parts[0] <= Weave(parts, fills)
    ensures HasSuffix(Weave(parts, fills), parts[|parts| - 1])
    decreases |parts|
  {
    if fills != [] {
      WeaveEnds(parts[1..], fills[1..]);
    }
  }

  lemma JoinStart(parts: seq<string>, sep: char)
    requires |parts| >= 1
    ensures parts[0] <= Join(parts, sep)
    ensures |parts| > 1 ==> parts[0] + [sep] <= Join(parts, sep)
  {
  }

  lemma {:induction false} JoinEnd(parts: seq<string>, sep: char)
    requires |parts| >= 1
    ensures HasSuffix(Join(parts, sep), parts[|parts| - 1])
    ensures |parts| > 1 ==> HasSuffix(Join(parts, sep), [sep] + parts[|parts| - 1])
  {
    if |parts| > 1 {
      JoinEnd(parts[1..], sep);
      var rest, last := Join(parts[1..], sep), parts[|parts| - 1];
      assert parts[1..][|parts[1..]| - 1] == last;
      if |parts| == 2 {
        assert Join(parts, sep) == parts[0] + ([sep] + last);
      } else {
        SuffixGrows(parts[0] + [sep], rest, [sep] + last);
      }
      SuffixOf([sep], last, Join(parts, sep));
    }
  }

  lemma SuffixGrows(front: string, s: string, end: string)
    requires HasSuffix(s, end)
    ensures HasSuffix(front + s, end)
  {
    assert (front + s)[|front + s| - |end|..] == s[|s| - |end|..];
  }

  lemma SuffixOf(front: string, end: string, s: string)
    requires HasSuffix(s, front + end)
    ensures HasSuffix(s, end)
  {
    assert s[|s| - |end|..] == s[|s| - |front + end|..][|front|..];
  }

  /** Every match starts with any literal start of its pattern. */
  lemma LiteralStart(pattern: string, pre: string, s: string)
    requires pre <= pattern && '*' !in pre
    requires Means(pattern, s)
    ensures pre <= s
  {
    var parts := Split(pattern, '*');
    SplitJoin(pattern, '*');
    JoinStart(parts, '*');
    var fills :| Fills(parts, fills, s);
    WeaveEnds(parts, fills);
    var first := parts[0];
    assert |parts| > 1 ==> pattern[|first|] == '*';
    assert |pre| <= |first|;
    assert pre == first[..|pre|];
  }

  /** Every match ends with any literal end of its pattern. */
  lemma LiteralEnd(pattern: string, end: string, s: string)
    requires HasSuffix(pattern, end) && '*' !in end
    requires Means(pattern, s)
    ensures HasSuffix(s, end)
  {
    var parts := Split(pattern, '*');
    SplitJoin(pattern, '*');
    JoinEnd(parts, '*');
    var fills :| Fills(parts, fills, s);
    WeaveEnds(parts, fills);
    var last := parts[|parts| - 1];
    StarBeforeLast(pattern, last, end, |parts| > 1);
    assert last == last[..|last| - |end|] + end;
    SuffixOf(last[..|last| - |end|], end, s);
  }

  lemma StarBeforeLast(pattern: string, last: string, end: string, more: bool)
    requires HasSuffix(pattern, last) && HasSuffix(pattern, end) && '*' !in end
    requires if more then HasSuffix(pattern, ['*'] + last) else pattern == last
    ensures |end| <= |last| && last[|last| - |end|..] == end
  {
    var n := |pattern|;
    if more {
      assert pattern[n - |last| - 1..][0] == '*';
      assert pattern[n - |last| - 1] == '*';
      assert forall k :: n - |end| <= k < n ==> pattern[k] == end[k - (n - |end|)];
    }
    assert |end| <= |last|;
    assert last[|last| - |end|..] == pattern[n - |end|..];
  }
}
