/** Trust-policy patterns over repository references: slash-separated globs
    in which a segment of two stars stands for any run of segments. */
module Segments {
  import opened Wrappers
  import opened Text
  import opened Glob

  const DOUBLE_STAR := "**"

  function Flatten(runs: seq<seq<string>>): seq<string> {
    if runs == [] then [] else runs[0] + Flatten(runs[1..])
  }

  /** A pattern segment stands for any run if it is the double star, and for
      one matching segment otherwise. */
  ghost predicate Stands(pat: string, run: seq<string>) {
    pat == "**" || (|run| == 1 && Means(pat, run[0]))
  }

  ghost predicate Assigns(pat: seq<string>, runs: seq<seq<string>>, name: seq<string>) {
    && |runs| == |pat| && Flatten(runs) == name
    && forall k :: 0 <= k < |pat| ==> Stands(pat[k], runs[k])
  }

  /** What a segment pattern means: some assignment of a run of segments to
      each of its segments makes up the name. */
  ghost predicate Satisfies(pat: seq<string>, name: seq<string>) {
    exists runs :: Assigns(pat, runs, name)
  }

  lemma EmptyPattern(name: seq<string>)
    ensures Satisfies([], name) <==> name == []
  {
    assert Assigns([], [], []);
  }

  lemma FirstRun(pat: seq<string>, name: seq<string>, n: nat)
    requires pat != [] && n <= |name|
    requires Stands(pat[0], name[..n]) && Satisfies(pat[1..], name[n..])
    ensures Satisfies(pat, name)
  {
    var runs :| Assigns(pat[1..], runs, name[n..]);
    var all := [name[..n]] + runs;
    assert all[1..] == runs;
    assert name == name[..n] + name[n..];
    assert Assigns(pat, all, name);
  }

  lemma SplitFirstRun(pat: seq<string>, name: seq<string>) returns (n: nat)
    requires pat != [] && Satisfies(pat, name)
    ensures n <= |name| && Stands(pat[0], name[..n]) && Satisfies(pat[1..], name[n..])
  {
    var runs :| Assigns(pat, runs, name);
    n := |runs[0]|;
    assert name == runs[0] + Flatten(runs[1..]);
    assert name[..n] == runs[0] && name[n..] == Flatten(runs[1..]);
    assert Assigns(pat[1..], runs[1..], name[n..]);
  }

  lemma LiteralSegment(pat: seq<string>, name: seq<string>)
    requires pat != [] && pat[0] != "**"
    ensures Satisfies(pat, name) <==> name != [] && Means(pat[0], name[0]) && Satisfies(pat[1..], name[1..])
  {
    if Satisfies(pat, name) {
      var n := SplitFirstRun(pat, name);
      assert n == 1 && name[..1][0] == name[0];
    }
    if name != [] && Means(pat[0], name[0]) && Satisfies(pat[1..], name[1..]) {
      assert name[..1][0] == name[0];
      FirstRun(pat, name, 1);
    }
  }

  ghost predicate SatisfiesFrom(pat: seq<string>, name: seq<string>, i: int) {
    0 <= i <= |name| && Satisfies(pat, name[i..])
  }

  lemma DoubleStar(pat: seq<string>, name: seq<string>)
    requires pat != [] && pat[0] == "**"
    ensures Satisfies(pat, name) <==> exists i :: SatisfiesFrom(pat[1..], name, i)
  {
    if Satisfies(pat, name) {
      var n := SplitFirstRun(pat, name);
      assert SatisfiesFrom(pat[1..], name, n);
    }
    if i :| SatisfiesFrom(pat[1..], name, i) {
      FirstRun(pat, name, i);
    }
  }

  // ----- the backtracking matcher and what it costs

  function Stars(pat: seq<string>): (k: nat)
    ensures k <= |pat|
  {
    if pat == [] then 0 else (if pat[0] == DOUBLE_STAR then 1 else 0) + Stars(pat[1..])
  }

  function Tries(i: nat, each: nat): nat {
    if i == 0 then 0 else Tries(i - 1, each) + each
  }

  /** An upper bound on the calls below one with k stars left and a name of n
      segments: n + 1 tries, each a call and what that call makes. */
  function Calls(k: nat, n: nat): nat {
    if k == 0 then 0 else Tries(n + 1, 1 + Calls(k - 1, n))
  }

  function Power(b: nat, e: nat): nat {
    if e == 0 then 1 else b * Power(b, e - 1)
  }

  lemma {:induction false} PowerPositive(b: nat, e: nat)
    requires b >= 1
    ensures Power(b, e) >= 1
  {
    if e > 0 {
      PowerPositive(b, e - 1);
      assert b * Power(b, e - 1) >= 1 * 1;
    }
  }

  lemma {:induction false} TriesMono(i: nat, j: nat, x: nat, y: nat)
    requires i <= j && x <= y
    ensures Tries(i, x) <= Tries(j, y)
    decreases j
  {
    if i < j {
      TriesMono(i, j - 1, x, y);
    } else if i > 0 {
      TriesMono(i - 1, j - 1, x, y);
    }
  }

  lemma {:induction false} TriesOfProduct(i: nat, k: nat, p: nat)
    ensures Tries(i, k * p) == k * (i * p)
  {
    if i > 0 {
      TriesOfProduct(i - 1, k, p);
      assert i * p == (i - 1) * p + p;
      assert k * ((i - 1) * p + p) == k * ((i - 1) * p) + k * p;
    }
  }

  /** k double stars cost at most k (n + 1)^k calls. */
  lemma {:induction false} CallsBounded(k: nat, n: nat)
    ensures Calls(k, n) <= k * Power(n + 1, k)
  {
    if k > 0 {
      CallsBounded(k - 1, n);
      PowerPositive(n + 1, k - 1);
      var p := Power(n + 1, k - 1);
      assert k * p == (k - 1) * p + p;
      TriesMono(n + 1, n + 1, 1 + Calls(k - 1, n), k * p);
      TriesOfProduct(n + 1, k, p);
    }
  }

  lemma {:induction false} CallsMono(k: nat, n: nat, m: nat)
    requires n <= m
    ensures Calls(k, n) <= Calls(k, m)
  {
    if k > 0 {
      CallsMono(k - 1, n, m);
      TriesMono(n + 1, m + 1, 1 + Calls(k - 1, n), 1 + Calls(k - 1, m));
    }
  }

  /** The matcher is exact, and the recursive calls it makes stay within the
      bound its double stars set. */
  method MatchSegments(pattern: seq<string>, segments: seq<string>) returns (ok: bool, calls: nat)
    ensures ok <==> Satisfies(pattern, segments)
    ensures calls <= Calls(Stars(pattern), |segments|)
    decreases |pattern|, 0
  {
    var pat, name := pattern, segments;
    while |pat| > 0
      invariant |pat| <= |pattern| && |name| <= |segments|
      invariant Satisfies(pattern, segments) <==> Satisfies(pat, name)
      invariant Stars(pat) == Stars(pattern)
      decreases |pat|
    {
      if pat[0] == DOUBLE_STAR {
        DoubleStar(pat, name);
        ok, calls := TryRuns(pat[1..], name);
        CallsMono(Stars(pat), |name|, |segments|);
        return;
      }
      LiteralSegment(pat, name);
      if |name| == 0 {
        return false, 0;
      }
      var one := GlobMatch(pat[0], name[0]);
      if !one {
        return false, 0;
      }
      pat, name := pat[1..], name[1..];
    }
    EmptyPattern(name);
    return |name| == 0, 0;
  }

  /** The loop under a double star: every run it could stand for, shortest
      first. */
  method TryRuns(pat: seq<string>, name: seq<string>) returns (ok: bool, calls: nat)
    ensures ok <==> exists i :: SatisfiesFrom(pat, name, i)
    ensures calls <= Tries(|name| + 1, 1 + Calls(Stars(pat), |name|))
    decreases |pat|, 1
  {
    calls := 0;
    ghost var each := 1 + Calls(Stars(pat), |name|);
    for i := 0 to |name| + 1
      invariant forall j :: 0 <= j < i ==> !SatisfiesFrom(pat, name, j)
      invariant calls <= Tries(i, each)
    {
      var found, below := MatchSegments(pat, name[i..]);
      CallsMono(Stars(pat), |name[i..]|, |name|);
      calls := calls + 1 + below;
      if found {
        assert SatisfiesFrom(pat, name, i);
        TriesMono(i + 1, |name| + 1, each, each);
        return true, calls;
      }
    }
    return false, calls;
  }

  datatype PatternError = EmptyPatternText | EmptySegment | StarsNotAlone | TooManyStars

  ghost predicate WellFormed(segs: seq<string>) {
    forall k :: 0 <= k < |segs| ==> segs[k] != "" && (Contains(segs[k], "**") ==> segs[k] == "**")
  }

  lemma {:induction false} StarsSnoc(segs: seq<string>, last: string)
    ensures Stars(segs + [last]) == Stars(segs) + if last == DOUBLE_STAR then 1 else 0
  {
    if segs == [] {
      assert [last][1..] == [];
    } else {
      assert (segs + [last])[1..] == segs[1..] + [last];
      StarsSnoc(segs[1..], last);
    }
  }

  /** Where a pattern's double stars are. */
  ghost function StarredAt(segs: seq<string>): set<nat> {
    set k: nat | k < |segs| && segs[k] == "**"
  }

  lemma {:induction false} StarsCounted(segs: seq<string>)
    ensures Stars(segs) == |StarredAt(segs)|
    decreases |segs|
  {
    if segs == [] {
      assert StarredAt(segs) == {};
    } else {
      var (init, last) := (segs[..|segs| - 1], segs[|segs| - 1]);
      assert segs == init + [last];
      StarsCounted(init);
      StarsSnoc(init, last);
      assert StarredAt(segs) == StarredAt(init) + if last == "**" then {|init|} else {};
    }
  }

  /** Accepted exactly when every segment is non-empty, a double star stands
      alone, and there are at most four of them. */
  method ValidatePattern(pattern: string) returns (e: Option<PatternError>)
    ensures e.None? <==> pattern != "" && WellFormed(Split(pattern, '/')) && |StarredAt(Split(pattern, '/'))| <= 4
  {
    if pattern == "" {
      return Some(EmptyPatternText);
    }
    var doubleStar := 0;
    var segs := Split(pattern, '/');
    for k := 0 to |segs|
      invariant WellFormed(segs[..k]) && doubleStar == Stars(segs[..k])
    {
      var seg := segs[k];
      assert segs[..k + 1] == segs[..k] + [seg];
      StarsSnoc(segs[..k], seg);
      if seg == "" {
        return Some(EmptySegment);
      }
      if Contains(seg, DOUBLE_STAR) && seg != DOUBLE_STAR {
        return Some(StarsNotAlone);
      }
      if seg == DOUBLE_STAR {
        doubleStar := doubleStar + 1;
      }
    }
    assert segs[..|segs|] == segs;
    StarsCounted(segs);
    return if doubleStar > 4 then Some(TooManyStars) else None;
  }

  /** A reference satisfies a pattern as the segments of the two satisfy each
      other, within 4 (n + 1)^4 calls for any pattern that validates. */
  method Match(pattern: string, name: string) returns (ok: bool, calls: nat)
    ensures ok <==> Satisfies(Split(pattern, '/'), Split(name, '/'))
    ensures |StarredAt(Split(pattern, '/'))| <= 4 ==> calls <= 4 * Power(|Split(name, '/')| + 1, 4)
  {
    ok, calls := MatchSegments(Split(pattern, '/'), Split(name, '/'));
    StarsCounted(Split(pattern, '/'));
    var k, n := Stars(Split(pattern, '/')), |Split(name, '/')|;
    if k <= 4 {
      CallsGrow(k, 4, n);
      CallsBounded(4, n);
    }
  }

  lemma {:induction false} CallsGrow(k: nat, m: nat, n: nat)
    requires k <= m
    ensures Calls(k, n) <= Calls(m, n)
    decreases m
  {
    if k < m {
      CallsGrow(k, m - 1, n);
      TriesMono(1, n + 1, Calls(m - 1, n), 1 + Calls(m - 1, n));
    }
  }

  // ----- an accepted pattern matches something

  /** The segments of a reference: some, none of them empty, nothing in them
      that is special to a pattern. */
  ghost predicate Proper(names: seq<string>) {
    names != [] && forall k :: 0 <= k < |names| ==> ProperSegment(names[k])
  }

  ghost predicate ProperSegment(s: string) {
    s != "" && '*' !in s && '/' !in s
  }

  /** Every star of a segment filled with the same letter. */
  lemma {:induction false} FilledParts(parts: seq<string>) returns (fills: seq<string>)
    requires parts != [] && forall k :: 0 <= k < |parts| ==> '*' !in parts[k] && '/' !in parts[k]
    ensures |parts| == |fills| + 1
    ensures '*' !in Weave(parts, fills) && '/' !in Weave(parts, fills)
    ensures |parts| > 1 || parts[0] != "" ==> Weave(parts, fills) != ""
    decreases |parts|
  {
    fills := [];
    if |parts| > 1 {
      var rest := FilledParts(parts[1..]);
      fills := ["a"] + rest;
      assert fills[1..] == rest;
      assert Weave(parts, fills) == parts[0] + "a" + Weave(parts[1..], rest);
    }
  }

  lemma PartsLack(s: string, sep: char, c: char)
    requires c !in s
    ensures forall k :: 0 <= k < |Split(s, sep)| ==> c !in Split(s, sep)[k]
    decreases |s|
  {
    var i := First(s, sep);
    if i >= 0 {
      PartsLack(s[i + 1..], sep, c);
    }
  }

  lemma FilledSegment(seg: string) returns (s: string)
    requires seg != "" && '/' !in seg
    ensures ProperSegment(s) && Means(seg, s)
  {
    SplitFree(seg, '*');
    PartsLack(seg, '*', '/');
    var parts := Split(seg, '*');
    var fills := FilledParts(parts);
    s := Weave(parts, fills);
    assert Fills(parts, fills, s);
    if |parts| == 1 {
      SplitJoin(seg, '*');
    }
  }

  lemma {:induction false} FilledSegments(pat: seq<string>) returns (names: seq<string>)
    requires forall k :: 0 <= k < |pat| ==> pat[k] != "" && '/' !in pat[k]
    ensures Satisfies(pat, names) && |names| == |pat| && forall k :: 0 <= k < |names| ==> ProperSegment(names[k])
    decreases |pat|
  {
    if pat == [] {
      names := [];
      EmptyPattern(names);
    } else {
      var first := FilledSegment(pat[0]);
      var rest := FilledSegments(pat[1..]);
      names := [first] + rest;
      assert names[..1] == [first] && names[1..] == rest;
      FirstRun(pat, names, 1);
    }
  }

  lemma {:induction false} EmptySegmentBlocks(pat: seq<string>, names: seq<string>)
    requires "" in pat && Satisfies(pat, names)
    ensures "" in names
    decreases |pat|
  {
    var n := SplitFirstRun(pat, names);
    if pat[0] == "" {
      assert names[..n][0] == names[0] && Means("", names[0]);
      ExactOnly("", names[0]);
    } else {
      EmptySegmentBlocks(pat[1..], names[n..]);
    }
  }

  /** Some reference satisfies a pattern if and only if no segment of the
      pattern is empty; so every pattern that validates matches one. */
  lemma MatchesAReference(pattern: string)
    ensures (exists names :: Proper(names) && Satisfies(Split(pattern, '/'), Split(Join(names, '/'), '/')))
            <==> "" !in Split(pattern, '/')
    ensures WellFormed(Split(pattern, '/')) ==> "" !in Split(pattern, '/')
  {
    var pat := Split(pattern, '/');
    SplitFree(pattern, '/');
    if "" !in pat {
      var names := FilledSegments(pat);
      JoinSplit(names, '/');
      assert Proper(names);
    }
    if names :| Proper(names) && Satisfies(pat, Split(Join(names, '/'), '/')) {
      JoinSplit(names, '/');
      if "" in pat {
        EmptySegmentBlocks(pat, names);
      }
    }
  }
}
