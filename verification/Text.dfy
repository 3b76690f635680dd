/** The string operations of Go's `strings` package that the modelled code is
    written in, with what each of them promises. */
module Text {

  ghost predicate At(s: string, sub: string, i: int) {
    0 <= i && i + |sub| <= |s| && s[i..i + |sub|] == sub
  }

  predicate HasSuffix(s: string, suffix: string) {
    |suffix| <= |s| && s[|s| - |suffix|..] == suffix
  }

  // ----- one character

  function FirstFrom(s: string, c: char, from: nat): (r: int)
    requires from <= |s|
    ensures r >= 0 ==> from <= r < |s| && s[r] == c && forall k :: from <= k < r ==> s[k] != c
    ensures r < 0 ==> r == -1 && forall k :: from <= k < |s| ==> s[k] != c
    decreases |s| - from
  {
    if from == |s| then -1 else if s[from] == c then from else FirstFrom(s, c, from + 1)
  }

  /** `strings.Index` for one character: where it first occurs, or -1. */
  function First(s: string, c: char): (r: int)
    ensures r >= 0 ==> r < |s| && s[r] == c && forall k :: 0 <= k < r ==> s[k] != c
    ensures r < 0 <==> c !in s
  {
    FirstFrom(s, c, 0)
  }

  function LastBelow(s: string, c: char, below: nat): (r: int)
    requires below <= |s|
    ensures r >= 0 ==> r < below && s[r] == c && forall k :: r < k < below ==> s[k] != c
    ensures r < 0 ==> r == -1 && forall k :: 0 <= k < below ==> s[k] != c
  {
    if below == 0 then -1 else if s[below - 1] == c then below - 1 else LastBelow(s, c, below - 1)
  }

  /** `strings.LastIndex` for one character: where it last occurs, or -1. */
  function Last(s: string, c: char): (r: int)
    ensures r >= 0 ==> r < |s| && s[r] == c && forall k :: r < k < |s| ==> s[k] != c
    ensures r < 0 <==> c !in s
  {
    LastBelow(s, c, |s|)
  }

  // ----- a substring

  function IndexFrom(s: string, sub: string, from: nat): (r: int)
    requires from <= |s|
    ensures r >= 0 ==> from <= r && At(s, sub, r) && forall i :: from <= i < r ==> !At(s, sub, i)
    ensures r < 0 ==> r == -1 && forall i :: from <= i ==> !At(s, sub, i)
    decreases |s| - from
  {
    if from + |sub| > |s| then -1
    else if s[from..from + |sub|] == sub then from
    else IndexFrom(s, sub, from + 1)
  }

  /** `strings.Index`: the leftmost occurrence, or -1. */
  function Index(s: string, sub: string): (r: int)
    ensures r >= 0 ==> At(s, sub, r) && forall i :: 0 <= i < r ==> !At(s, sub, i)
    ensures r < 0 ==> r == -1 && forall i :: !At(s, sub, i)
  {
    IndexFrom(s, sub, 0)
  }

  predicate Contains(s: string, sub: string) {
    Index(s, sub) >= 0
  }

  function LastIndexFrom(s: string, sub: string, from: nat): (r: int)
    requires from <= |s|
    ensures r >= 0 ==> At(s, sub, r) && r <= from && forall i :: r < i <= from ==> !At(s, sub, i)
    ensures r < 0 ==> r == -1 && forall i :: 0 <= i <= from ==> !At(s, sub, i)
  {
    if from + |sub| <= |s| && s[from..from + |sub|] == sub then from
    else if from == 0 then -1
    else LastIndexFrom(s, sub, from - 1)
  }

  /** `strings.LastIndex`: the rightmost occurrence, or -1. */
  function LastIndex(s: string, sub: string): (r: int)
    ensures r >= 0 ==> At(s, sub, r) && forall i :: r < i ==> !At(s, sub, i)
    ensures r < 0 ==> r == -1 && forall i :: !At(s, sub, i)
  {
    LastIndexFrom(s, sub, |s|)
  }

  // ----- splitting and joining

  /** `strings.Split` on a one-character separator. */
  function Split(s: string, sep: char): (parts: seq<string>)
    ensures |parts| >= 1
  {
    var i := First(s, sep);
    if i < 0 then [s] else [s[..i]] + Split(s[i + 1..], sep)
  }

  function Join(parts: seq<string>, sep: char): string
    requires |parts| >= 1
  {
    if |parts| == 1 then parts[0] else parts[0] + [sep] + Join(parts[1..], sep)
  }

  lemma JoinCons(head: string, sep: char, rest: seq<string>)
    requires |rest| >= 1
    ensures Join([head] + rest, sep) == head + [sep] + Join(rest, sep)
  {
    assert ([head] + rest)[1..] == rest;
  }

  /** Splitting loses nothing... */
  lemma {:induction false} SplitJoin(s: string, sep: char)
    ensures Join(Split(s, sep), sep) == s
  {
    var i := First(s, sep);
    if i >= 0 {
      SplitJoin(s[i + 1..], sep);
      JoinCons(s[..i], sep, Split(s[i + 1..], sep));
      assert s == s[..i] + [sep] + s[i + 1..];
    }
  }

  /** ...and leaves no separator inside a part. */
  lemma {:induction false} SplitFree(s: string, sep: char)
    ensures forall k :: 0 <= k < |Split(s, sep)| ==> sep !in Split(s, sep)[k]
  {
    var i := First(s, sep);
    if i >= 0 {
      SplitFree(s[i + 1..], sep);
      assert sep !in s[..i];
    }
  }

  /** Two separators in a row, or one at an end, or nothing at all. */
  ghost predicate Gapped(s: string, sep: char) {
    || s == "" || s[0] == sep || s[|s| - 1] == sep
    || exists i :: 0 <= i < |s| - 1 && s[i] == sep && s[i + 1] == sep
  }

  lemma GappedPast(s: string, sep: char, i: nat)
    requires i < |s| && s[i] == sep && forall k :: 0 <= k < i ==> s[k] != sep
    ensures Gapped(s, sep) <==> i == 0 || Gapped(s[i + 1..], sep)
  {
    var rest := s[i + 1..];
    if j :| 0 <= j < |s| - 1 && s[j] == sep && s[j + 1] == sep {
      assert j >= i;
      assert rest[0] == s[i + 1];
      assert j > i ==> rest[j - i - 1] == sep && rest[j - i] == sep;
    }
    if rest != "" {
      assert rest[0] == s[i + 1] && rest[|rest| - 1] == s[|s| - 1];
      if j :| 0 <= j < |rest| - 1 && rest[j] == sep && rest[j + 1] == sep {
        assert s[i + 1 + j] == sep && s[i + 1 + j + 1] == sep;
      }
    }
  }

  ghost predicate HasEmpty(parts: seq<string>) {
    exists k :: 0 <= k < |parts| && |parts[k]| == 0
  }

  lemma HasEmptyCons(head: string, rest: seq<string>)
    ensures HasEmpty([head] + rest) <==> |head| == 0 || HasEmpty(rest)
  {
    var parts := [head] + rest;
    if k :| 0 <= k < |rest| && |rest[k]| == 0 {
      assert parts[k + 1] == rest[k];
    }
    if |head| == 0 {
      assert |parts[0]| == 0;
    }
    if k :| 0 <= k < |parts| && |parts[k]| == 0 {
      assert k == 0 || rest[k - 1] == parts[k];
    }
  }

  lemma SplitNone(s: string, sep: char)
    requires First(s, sep) < 0
    ensures Split(s, sep) == [s]
    ensures HasEmpty([s]) <==> |s| == 0
    ensures Gapped(s, sep) <==> |s| == 0
  {
    HasEmptyCons(s, []);
    assert [s] + [] == [s];
  }

  lemma SplitSome(s: string, sep: char, i: nat)
    requires First(s, sep) == i
    ensures i < |s| && Split(s, sep) == [s[..i]] + Split(s[i + 1..], sep)
    ensures s[i] == sep && forall k :: 0 <= k < i ==> s[k] != sep
  {
  }

  /** A part is empty exactly when the separators leave a gap. */
  lemma {:induction false} EmptyPart(s: string, sep: char)
    ensures HasEmpty(Split(s, sep)) <==> Gapped(s, sep)
    decreases |s|
  {
    var i := First(s, sep);
    if i < 0 {
      SplitNone(s, sep);
    } else {
      SplitSome(s, sep, i);
      EmptyPart(s[i + 1..], sep);
      HasEmptyCons(s[..i], Split(s[i + 1..], sep));
      GappedPast(s, sep, i);
    }
  }

  lemma SplitCons(head: string, sep: char, tail: string)
    requires sep !in head
    ensures Split(head + [sep] + tail, sep) == [head] + Split(tail, sep)
  {
    var s := head + [sep] + tail;
    assert s[|head|] == sep && First(s, sep) == |head|;
    assert s[..|head|] == head && s[|head| + 1..] == tail;
  }

  /** The parts of a joined list are that list. */
  lemma {:induction false} JoinSplit(parts: seq<string>, sep: char)
    requires |parts| >= 1 && forall k :: 0 <= k < |parts| ==> sep !in parts[k]
    ensures Split(Join(parts, sep), sep) == parts
  {
    if |parts| > 1 {
      JoinSplit(parts[1..], sep);
      SplitCons(parts[0], sep, Join(parts[1..], sep));
    }
  }
}
