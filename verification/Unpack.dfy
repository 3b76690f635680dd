/** Unpacking a runtime artifact beside the store: deciding whether a tree is
    exactly what its manifest names, and replacing it when it is not, by any
    number of processes of which any may stop at any step. */
module Unpack {
  import opened Wrappers
  import opened Primitives
  import opened Sets
  import opened Text

  datatype Layer = Layer(name: string, digest: Bytes, size: nat)

  datatype Node = Regular(bytes: Bytes) | Irregular

  /** What a directory holds, by name; no directory holds a slash. */
  type Files = m: map<string, Node> | "/" !in m

  /** What is at the unpack directory's name. */
  datatype Place = Absent | NotADirectory | Tree(files: Files)

  type Want = map<string, Layer>

  // ----- what may be unpacked at all

  /** `filepath.Base`: the last component, without trailing slashes; a slash when
      there is nothing else, a dot when there is nothing. */
  function Base(name: string): string {
    if name == "" then "."
    else if name[|name| - 1] == '/' then (if |name| == 1 then "/" else Base(name[..|name| - 1]))
    else name[Last(name, '/') + 1..]
  }

  predicate ValidName(name: string) {
    name != "" && name != "." && name != ".." && name == Base(name)
  }

  /** A name a directory can hold. */
  ghost predicate PlainName(name: string) {
    name != "" && name != "." && name != ".." && '/' !in name
  }

  lemma {:induction false} BaseHasNoSlash(name: string)
    ensures Base(name) == "/" || '/' !in Base(name)
    decreases |name|
  {
    if name != "" && name[|name| - 1] == '/' && |name| > 1 {
      BaseHasNoSlash(name[..|name| - 1]);
    }
  }

  ghost predicate Admissible(name: string) {
    PlainName(name) || name == "/"
  }

  /** The check lets one name through beside the plain ones: a lone slash, which is
      its own base. */
  lemma ValidNames(name: string)
    ensures ValidName(name) <==> Admissible(name)
  {
    BaseHasNoSlash(name);
    if '/' !in name && name != "" {
      assert name[|name| - 1] != '/' && Last(name, '/') == -1;
    }
  }

  method CheckName(name: string) returns (ok: bool)
    ensures ok <==> Admissible(name)
  {
    ValidNames(name);
    ok := ValidName(name);
  }

  ghost predicate Distinct(layers: seq<Layer>) {
    forall i, j :: 0 <= i < j < |layers| ==> layers[i].name != layers[j].name
  }

  /** Accepted exactly when every layer has a file name of its own, plain or a lone
      slash, and a digest this build can check. */
  method ValidateLayers(usable: Bytes -> bool, layers: seq<Layer>) returns (ok: bool)
    ensures ok <==>
              Distinct(layers)
              && forall i :: 0 <= i < |layers| ==>
                   Admissible(layers[i].name) && usable(layers[i].digest)
  {
    var seen: set<string> := {};
    for k := 0 to |layers|
      invariant seen == set i | 0 <= i < k :: layers[i].name
      invariant Distinct(layers[..k])
      invariant forall i :: 0 <= i < k ==> Admissible(layers[i].name) && usable(layers[i].digest)
    {
      var l := layers[k];
      var valid := CheckName(l.name);
      if !valid {
        return false;
      }
      if l.name in seen {
        return false;
      }
      seen := seen + {l.name};
      if !usable(l.digest) {
        return false;
      }
    }
    assert layers[..|layers|] == layers;
    return true;
  }

  // ----- whether a tree is what a manifest names

  /** The layer each name stands for. */
  function Wanted(layers: seq<Layer>): (w: Want)
    ensures w.Keys == set l | l in layers :: l.name
  {
    if layers == [] then map[]
    else
      assert layers == layers[..|layers| - 1] + [layers[|layers| - 1]];
      Wanted(layers[..|layers| - 1])[layers[|layers| - 1].name := layers[|layers| - 1]]
  }

  predicate FileMatches(sha: Hasher, n: Node, l: Layer) {
    n.Regular? && |n.bytes| == l.size && sha(n.bytes) == l.digest
  }

  /** Exactly the wanted names, each a regular file of exactly the bytes. */
  ghost predicate Matches(sha: Hasher, want: Want, p: Place) {
    && p.Tree? && p.files.Keys == want.Keys
    && forall n :: n in want ==> FileMatches(sha, p.files[n], want[n])
  }

  /** A count and a look at each file present decide set equality. */
  method MaterializedMatches(sha: Hasher, layers: seq<Layer>, p: Place) returns (ok: bool)
    ensures ok <==> Matches(sha, Wanted(layers), p)
  {
    var want: Want := map[];
    for k := 0 to |layers|
      invariant want == Wanted(layers[..k])
    {
      assert layers[..k + 1][..k] == layers[..k];
      want := want[layers[k].name := layers[k]];
    }
    assert layers[..|layers|] == layers;
    if !p.Tree? {
      return false;
    }
    if |p.files| != |want| {
      assert |p.files| == |p.files.Keys| && |want| == |want.Keys|;
      return false;
    }
    var entries := p.files.Keys;
    while entries != {}
      invariant entries <= p.files.Keys
      invariant forall n :: n in p.files && n !in entries ==> n in want && FileMatches(sha, p.files[n], want[n])
      decreases entries
    {
      var n :| n in entries;
      entries := entries - {n};
      if n !in want {
        return false;
      }
      if !FileMatches(sha, p.files[n], want[n]) {
        return false;
      }
    }
    assert |p.files.Keys| == |want.Keys|;
    SubsetSize(p.files.Keys, want.Keys);
    return true;
  }

  /** For a manifest that validates, a tree matches exactly when it holds each
      layer under its name, a regular file of just the bytes recorded, and nothing
      else. */
  lemma MatchesEveryLayer(sha: Hasher, layers: seq<Layer>, p: Place)
    requires Distinct(layers)
    ensures Matches(sha, Wanted(layers), p) <==>
            && p.Tree?
            && (forall n :: n in p.files ==> exists i :: 0 <= i < |layers| && layers[i].name == n)
            && forall i :: 0 <= i < |layers| ==>
                 var l := layers[i];
                 l.name in p.files && p.files[l.name].Regular?
                 && |p.files[l.name].bytes| == l.size && sha(p.files[l.name].bytes) == l.digest
  {
    forall i | 0 <= i < |layers|
      ensures layers[i].name in Wanted(layers) && Wanted(layers)[layers[i].name] == layers[i]
    {
      WantedAt(layers, i);
    }
    forall n | n in Wanted(layers)
      ensures exists i :: 0 <= i < |layers| && layers[i].name == n
    {
      var l :| l in layers && l.name == n;
    }
  }

  lemma {:induction false} WantedAt(layers: seq<Layer>, i: nat)
    requires Distinct(layers) && i < |layers|
    ensures layers[i].name in Wanted(layers) && Wanted(layers)[layers[i].name] == layers[i]
    decreases |layers|
  {
    if i < |layers| - 1 {
      WantedAt(layers[..|layers| - 1], i);
    }
  }

  // ----- concurrent unpacks

  type Pid = nat

  /** An unpack directory: its name carries the manifest's digest, so it names
      one manifest. */
  type Dir = nat

  /** Where one `Ensure` call has got to, for the directory it is about. */
  datatype Phase =
    | Waiting(dir: Dir)
    | Locked(dir: Dir)
    | Staging(dir: Dir, files: Files)
    | Removing(dir: Dir, files: Files)
    | Over(dir: Dir, ok: bool)
  {
    predicate HasLock() {
      Locked? || Staging? || Removing?
    }

    /** Past the check, which found no match. */
    predicate Replacing(d: Dir) {
      (Staging? || Removing?) && dir == d
    }
  }

  datatype State = State(trees: map<Dir, Place>, lock: Option<Pid>, calls: map<Pid, Phase>) {
    function At(d: Dir): Place {
      if d in trees then trees[d] else Absent
    }
  }

  datatype World = World(sha: Hasher, want: Dir -> Want)

  datatype Step =
    | Call(dir: Dir) | Acquire | Check(misread: bool) | Copy(name: string, bytes: Bytes)
    | Remove | Rename | Fail | Crash

  ghost predicate Complete(w: World, d: Dir, files: Files) {
    Matches(w.sha, w.want(d), Tree(files))
  }

  /** A tree with some of it removed. */
  predicate Less(before: Place, after: Place) {
    || after == Absent
    || (before.Tree? && after.Tree? && after.files.Keys <= before.files.Keys
        && forall n :: n in after.files ==> after.files[n] == before.files[n])
  }

  /** What one call may do next. `Fail` is any error: the call ends, its
      staging directory goes and the lock with it. A crash leaves everything
      as it is, but for the lock. */
  ghost predicate Next(w: World, s: State, s': State, p: Pid, step: Step) {
    match step
    case Call(d) => (p !in s.calls || s.calls[p].Over?) && s' == s.(calls := s.calls[p := Waiting(d)])
    case Acquire =>
      p in s.calls && s.calls[p].Waiting? && s.lock == None
      && s' == s.(lock := Some(p), calls := s.calls[p := Locked(s.calls[p].dir)])
    // the tree is looked over; an error reading it counts as no match
    case Check(misread) =>
      p in s.calls && s.calls[p].Locked?
      && var d := s.calls[p].dir;
         s' == if Matches(w.sha, w.want(d), s.At(d)) && !misread then s.(lock := None, calls := s.calls[p := Over(d, true)])
               else s.(calls := s.calls[p := Staging(d, map[])])
    // one layer out of the store, held to its digest as it goes past; one that
    // is named by a slash would have to be the staging directory itself
    case Copy(name, bytes) =>
      p in s.calls && s.calls[p].Staging?
      && var c := s.calls[p];
         name in w.want(c.dir) && name != "/" && name !in c.files && FileMatches(w.sha, Regular(bytes), w.want(c.dir)[name])
         && s' == s.(calls := s.calls[p := c.(files := c.files[name := Regular(bytes)])])
    // with every layer copied, the old tree goes, a part at a time
    case Remove =>
      p in s.calls && (s.calls[p].Removing? || (s.calls[p].Staging? && s.calls[p].files.Keys == w.want(s.calls[p].dir).Keys))
      && var c := s.calls[p];
         exists after :: Less(s.At(c.dir), after)
           && s' == s.(trees := s.trees[c.dir := after], calls := s.calls[p := Removing(c.dir, c.files)])
    // and the staged one takes its name
    case Rename =>
      p in s.calls && s.calls[p].Removing? && s.At(s.calls[p].dir) == Absent
      && var c := s.calls[p];
         s' == s.(trees := s.trees[c.dir := Tree(c.files)], lock := None, calls := s.calls[p := Over(c.dir, true)])
    case Fail =>
      p in s.calls && !s.calls[p].Over?
      && s' == s.(lock := if s.calls[p].HasLock() then None else s.lock, calls := s.calls[p := Over(s.calls[p].dir, false)])
    case Crash =>
      p in s.calls && s' == s.(lock := if s.calls[p].HasLock() then None else s.lock, calls := s.calls - {p})
  }

  ghost predicate Init(s: State) {
    s.lock == None && s.calls == map[]
  }

  /** One call at a time is past the lock, and what it has staged is right as
      far as it goes, and whole once it starts removing. */
  ghost predicate Inv(w: World, s: State) {
    && (forall p :: p in s.calls ==> (s.calls[p].HasLock() <==> s.lock == Some(p)))
    && (s.lock.Some? ==> s.lock.value in s.calls)
    && (forall p :: p in s.calls && s.calls[p].Staging? ==> StagedRight(w, s.calls[p].dir, s.calls[p].files))
    && (forall p :: p in s.calls && s.calls[p].Removing? ==> Complete(w, s.calls[p].dir, s.calls[p].files))
  }

  ghost predicate StagedRight(w: World, d: Dir, files: Files) {
    forall n :: n in files ==> n in w.want(d) && FileMatches(w.sha, files[n], w.want(d)[n])
  }

  lemma InvStep(w: World, s: State, s': State, p: Pid, step: Step)
    requires Inv(w, s) && Next(w, s, s', p, step)
    ensures Inv(w, s')
  {
  }

  /** A tree that matches while nobody is replacing it. */
  ghost predicate InPlace(w: World, s: State, d: Dir) {
    && Matches(w.sha, w.want(d), s.At(d))
    && forall p :: p in s.calls ==> !s.calls[p].Replacing(d)
  }

  /** A check of d that fails to read it. */
  ghost predicate Misreads(s: State, p: Pid, step: Step, d: Dir) {
    step == Check(true) && p in s.calls && s.calls[p] == Locked(d)
  }

  /** Such a tree is left exactly as it is by every step of every call, and
      nobody sets about replacing it but after failing to read it. */
  lemma InPlaceStays(w: World, s: State, s': State, p: Pid, step: Step, d: Dir)
    requires Inv(w, s) && Next(w, s, s', p, step) && InPlace(w, s, d)
    ensures s'.At(d) == s.At(d)
    ensures !Misreads(s, p, step, d) ==> InPlace(w, s', d)
  {
  }

  /** When a call succeeds, at that moment its directory holds exactly the
      manifest's names with exactly the recorded bytes, and is in place. */
  lemma SuccessIsInPlace(w: World, s: State, s': State, p: Pid, step: Step)
    requires Inv(w, s) && Next(w, s, s', p, step)
    requires p in s'.calls && s'.calls[p].Over? && s'.calls[p].ok && !(p in s.calls && s.calls[p] == s'.calls[p])
    ensures InPlace(w, s', s'.calls[p].dir)
  {
  }

  /** Nothing but a whole, matching tree is ever put at a directory's name. */
  lemma InstalledWhole(w: World, s: State, s': State, p: Pid, step: Step, d: Dir)
    requires Inv(w, s) && Next(w, s, s', p, step) && !Less(s.At(d), s'.At(d)) && s'.At(d) != s.At(d)
    ensures Matches(w.sha, w.want(d), s'.At(d))
  {
  }

  datatype Move = Move(p: Pid, step: Step)

  ghost predicate Run(w: World, states: seq<State>, moves: seq<Move>) {
    && |states| == |moves| + 1 && Init(states[0])
    && forall i :: 0 <= i < |moves| ==> Next(w, states[i], states[i + 1], moves[i].p, moves[i].step)
  }

  lemma {:induction false} RunInv(w: World, states: seq<State>, moves: seq<Move>, i: nat)
    requires Run(w, states, moves) && i < |states|
    ensures Inv(w, states[i])
  {
    if i > 0 {
      RunInv(w, states, moves, i - 1);
      InvStep(w, states[i - 1], states[i], moves[i - 1].p, moves[i - 1].step);
    }
  }

  ghost predicate MisreadAt(states: seq<State>, moves: seq<Move>, x: nat, d: Dir) {
    x < |moves| && x < |states| && Misreads(states[x], moves[x].p, moves[x].step, d)
  }

  lemma {:induction false} OnceInPlace(w: World, states: seq<State>, moves: seq<Move>, i: nat, j: nat, d: Dir)
    requires Run(w, states, moves) && i <= j < |states| && InPlace(w, states[i], d)
    requires forall x: nat :: i <= x < j ==> !MisreadAt(states, moves, x, d)
    ensures InPlace(w, states[j], d) && states[j].At(d) == states[i].At(d)
    decreases j - i
  {
    if i < j {
      OnceInPlace(w, states, moves, i, j - 1, d);
      RunInv(w, states, moves, j - 1);
      assert !MisreadAt(states, moves, j - 1, d);
      InPlaceStays(w, states[j - 1], states[j], moves[j - 1].p, moves[j - 1].step, d);
    }
  }

  /** In every run a matching tree that nobody is replacing is altered, or set
      about, only after a check failed to read it. */
  lemma AlteredOnlyAfterMisread(w: World, states: seq<State>, moves: seq<Move>, i: nat, j: nat, d: Dir) returns (x: nat)
    requires Run(w, states, moves) && i <= j < |states| && InPlace(w, states[i], d)
    requires states[j].At(d) != states[i].At(d) || !InPlace(w, states[j], d)
    ensures i <= x < j && MisreadAt(states, moves, x, d)
  {
    if y: nat :| i <= y < j && MisreadAt(states, moves, y, d) {
      x := y;
    } else {
      OnceInPlace(w, states, moves, i, j, d);
      assert false;
    }
  }

  ghost predicate SucceedsAt(states: seq<State>, moves: seq<Move>, i: nat, d: Dir)
    requires |states| == |moves| + 1
  {
    && i < |moves| && moves[i].p in states[i + 1].calls && states[i + 1].calls[moves[i].p] == Over(d, true)
    && !(moves[i].p in states[i].calls && states[i].calls[moves[i].p] == Over(d, true))
  }

  /** In every run: once a call has returned, its directory holds exactly what
      the manifest names, and no later call or crash changes that, unless a
      check fails to read it. */
  lemma EnsuredStaysEnsured(w: World, states: seq<State>, moves: seq<Move>, i: nat, j: nat, d: Dir)
    requires Run(w, states, moves) && SucceedsAt(states, moves, i, d) && i < j < |states|
    requires forall x: nat :: i < x < j ==> !MisreadAt(states, moves, x, d)
    ensures Matches(w.sha, w.want(d), states[j].At(d)) && states[j].At(d) == states[i + 1].At(d)
  {
    RunInv(w, states, moves, i);
    SuccessIsInPlace(w, states[i], states[i + 1], moves[i].p, moves[i].step);
    OnceInPlace(w, states, moves, i + 1, j, d);
  }

  // ----- what a misread does

  /** From a state on: the states that follow, and the one come to. */
  ghost predicate Path(w: World, states: seq<State>, moves: seq<Move>, s: State, s': State) {
    && |states| == |moves| + 1 && states[0] == s && states[|moves|] == s'
    && forall i :: 0 <= i < |moves| ==> Next(w, states[i], states[i + 1], moves[i].p, moves[i].step)
  }

  lemma PathMore(w: World, states: seq<State>, moves: seq<Move>, s: State, mid: State, s': State, p: Pid, step: Step)
    requires Path(w, states, moves, s, mid) && Next(w, mid, s', p, step)
    ensures Path(w, states + [s'], moves + [Move(p, step)], s, s')
  {
    var (ss, ms) := (states + [s'], moves + [Move(p, step)]);
    forall i | 0 <= i < |ms|
      ensures Next(w, ss[i], ss[i + 1], ms[i].p, ms[i].step)
    {
      if i < |moves| {
        assert ss[i + 1] == states[i + 1];
      }
    }
  }

  ghost function StagingOf(s: State, p: Pid, d: Dir, files: Files): State {
    s.(calls := s.calls[p := Staging(d, files)])
  }

  /** The layers are staged one after another, up to all of a whole tree. */
  lemma {:induction false} Stages(w: World, s: State, p: Pid, d: Dir, misread: bool, files: Files)
    returns (states: seq<State>, moves: seq<Move>)
    requires p in s.calls && s.calls[p] == Locked(d) && (Matches(w.sha, w.want(d), s.At(d)) ==> misread)
    requires StagedRight(w, d, files)
    ensures Path(w, states, moves, s, StagingOf(s, p, d, files))
    decreases files
  {
    if files == map[] {
      states, moves := [s, StagingOf(s, p, d, map[])], [Move(p, Check(misread))];
    } else {
      var n :| n in files;
      var fewer := files - {n};
      states, moves := Stages(w, s, p, d, misread, fewer);
      var (mid, s') := (StagingOf(s, p, d, fewer), StagingOf(s, p, d, files));
      StageOne(w, s, p, d, fewer, n, files[n]);
      assert fewer[n := files[n]] == files;
      PathMore(w, states, moves, s, mid, s', p, Copy(n, files[n].bytes));
      states, moves := states + [s'], moves + [Move(p, Copy(n, files[n].bytes))];
    }
  }

  lemma StageOne(w: World, s: State, p: Pid, d: Dir, files: Files, n: string, node: Node)
    requires n !in files && n in w.want(d) && n != "/" && FileMatches(w.sha, node, w.want(d)[n])
    ensures Next(w, StagingOf(s, p, d, files), StagingOf(s, p, d, files[n := node]), p, Copy(n, node.bytes))
  {
    var (mid, s') := (StagingOf(s, p, d, files), StagingOf(s, p, d, files[n := node]));
    assert mid.calls[p := Staging(d, files[n := node])] == s'.calls;
  }

  /** And with them all staged, the old tree can go. */
  lemma Clears(w: World, s: State, p: Pid, d: Dir, misread: bool, files: Files)
    returns (states: seq<State>, moves: seq<Move>, s': State)
    requires p in s.calls && s.calls[p] == Locked(d) && (Matches(w.sha, w.want(d), s.At(d)) ==> misread)
    requires Complete(w, d, files)
    ensures Path(w, states, moves, s, s') && s'.At(d) == Absent
    ensures s' == s.(trees := s.trees[d := Absent], calls := s.calls[p := Removing(d, files)])
  {
    states, moves := Stages(w, s, p, d, misread, files);
    var mid := StagingOf(s, p, d, files);
    s' := mid.(trees := mid.trees[d := Absent], calls := mid.calls[p := Removing(d, files)]);
    assert s'.calls == s.calls[p := Removing(d, files)];
    assert Less(mid.At(d), Absent);
    PathMore(w, states, moves, s, mid, s', p, Remove);
    states, moves := states + [s'], moves + [Move(p, Remove)];
  }

  /** From any check of a matching tree a misread leads to its removal. */
  lemma MisreadTakesItAway(w: World, s: State, p: Pid, d: Dir)
    returns (states: seq<State>, moves: seq<Move>, s': State)
    requires p in s.calls && s.calls[p] == Locked(d) && Matches(w.sha, w.want(d), s.At(d))
    ensures Path(w, states, moves, s, s') && s'.At(d) == Absent
  {
    states, moves, s' := Clears(w, s, p, d, true, s.At(d).files);
  }

  // ----- a call can be carried through, whatever is there

  ghost function LockedBy(s: State, p: Pid, d: Dir): State {
    s.(lock := Some(p), calls := s.calls[p := Locked(d)])
  }

  /** With the lock free and the layers to be had, whatever stands at the name, a
      call can return with the tree in place; one that matches is left alone. */
  lemma CallsCanFinish(w: World, s: State, p: Pid, d: Dir, files: Files)
    returns (states: seq<State>, moves: seq<Move>, s': State)
    requires p in s.calls && s.calls[p] == Waiting(d) && s.lock == None
    requires Complete(w, d, files)
    ensures Path(w, states, moves, s, s') && s'.calls == s.calls[p := Over(d, true)] && s'.lock == None
    ensures s'.At(d) == if Matches(w.sha, w.want(d), s.At(d)) then s.At(d) else Tree(files)
  {
    var locked := LockedBy(s, p, d);
    var start := ([s, locked], [Move(p, Acquire)]);
    assert Path(w, start.0, start.1, s, locked);
    if Matches(w.sha, w.want(d), s.At(d)) {
      s' := s.(calls := s.calls[p := Over(d, true)]);
      assert locked.calls[p := Over(d, true)] == s'.calls;
      PathMore(w, start.0, start.1, s, locked, s', p, Check(false));
      states, moves := start.0 + [s'], start.1 + [Move(p, Check(false))];
    } else {
      var more, steps, cleared := Clears(w, locked, p, d, false, files);
      states, moves := PathsJoin(w, start.0, start.1, more, steps, s, locked, cleared);
      s' := cleared.(trees := cleared.trees[d := Tree(files)], lock := None, calls := cleared.calls[p := Over(d, true)]);
      assert s'.calls == s.calls[p := Over(d, true)];
      PathMore(w, states, moves, s, cleared, s', p, Rename);
      states, moves := states + [s'], moves + [Move(p, Rename)];
    }
  }

  lemma PathsJoin(w: World, a: seq<State>, ms: seq<Move>, b: seq<State>, ns: seq<Move>, s: State, mid: State, s': State)
    returns (states: seq<State>, moves: seq<Move>)
    requires Path(w, a, ms, s, mid) && Path(w, b, ns, mid, s')
    ensures Path(w, states, moves, s, s')
  {
    states, moves := a + b[1..], ms + ns;
    forall i | 0 <= i < |moves|
      ensures Next(w, states[i], states[i + 1], moves[i].p, moves[i].step)
    {
      if i < |ms| {
        assert states[i] == a[i] && states[i + 1] == a[i + 1];
      } else {
        var j := i - |ms|;
        assert states[i] == b[j] && states[i + 1] == b[j + 1] && moves[i] == ns[j];
      }
    }
  }

  // ----- a layer named by a lone slash

  ghost predicate Returned(s: State, p: Pid, d: Dir) {
    p in s.calls && s.calls[p] == Over(d, true)
  }

  lemma SlashStep(w: World, s: State, s': State, p: Pid, step: Step, q: Pid, d: Dir)
    requires Inv(w, s) && Next(w, s, s', p, step) && "/" in w.want(d) && !Returned(s, q, d)
    ensures !Returned(s', q, d)
  {
  }

  /** It passes validation, but as no directory holds such a name, in no run does a
      call for its artifact ever succeed. */
  lemma {:induction false} SlashNeverUnpacks(w: World, states: seq<State>, moves: seq<Move>, i: nat, p: Pid, d: Dir)
    requires Run(w, states, moves) && i < |states| && "/" in w.want(d)
    ensures !Returned(states[i], p, d)
  {
    if i > 0 {
      SlashNeverUnpacks(w, states, moves, i - 1, p, d);
      RunInv(w, states, moves, i - 1);
      SlashStep(w, states[i - 1], states[i], moves[i - 1].p, moves[i - 1].step, p, d);
    }
  }
}
