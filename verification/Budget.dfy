/** The router's memory budget over all interleavings: the bound that holds, and
    runs that reach it. */
module Budget {
  import opened Wrappers
  import opened Instances
  import opened Router
  import opened Sets

  /** What is loaded and what loads that made room are about to load. */
  ghost function Committed(s: State): nat
    requires s.Known()
  {
    Used(s.Table()) + Used(s.Pending())
  }

  /** Every load that made room asked for no more than the budget. */
  ghost predicate PendingFit(c: Config, s: State) {
    forall r :: r in s.Pending() ==> s.Pending()[r].memory <= c.budget
  }

  /** k budgets. */
  function Budgets(k: nat, b: nat): nat
    decreases k
  {
    if k == 0 then 0 else Budgets(k - 1, b) + b
  }

  lemma {:induction false} BudgetsIsProduct(k: nat, b: nat)
    ensures Budgets(k, b) == k * b
    decreases k
  {
    if k > 0 {
      BudgetsIsProduct(k - 1, b);
    }
  }

  lemma {:induction false} MoreBudgets(j: nat, k: nat, b: nat)
    requires j <= k
    ensures Budgets(j, b) <= Budgets(k, b)
    decreases k
  {
    if j < k {
      MoreBudgets(j, k - 1, b);
    }
  }

  lemma OneFewer(m: Loaded, r: Ref)
    requires r in m
    ensures |m| == |m - {r}| + 1
  {
    assert m.Keys == (m - {r}).Keys + {r};
  }

  lemma {:induction false} UsedBound(m: Loaded, b: nat)
    requires forall r :: r in m ==> m[r].memory <= b
    ensures Used(m) <= Budgets(|m|, b)
    decreases |m|
  {
    if r :| r in m {
      var rest := m - {r};
      UsedLess(m, r);
      assert forall q :: q in rest ==> rest[q] == m[q];
      OneFewer(m, r);
      UsedBound(rest, b);
    }
  }

  /** The table depends on no more than this. */
  lemma Unchanged(s: State, s': State)
    requires s.Known() && s'.Known() && s'.loaded == s.loaded
    requires forall i :: i in s.lives ==> i in s'.lives && s'.lives[i].inst == s.lives[i].inst
    ensures s'.Table() == s.Table()
  {
  }

  /** Nor do the pending loads on more than this. */
  lemma PendingSame(s: State, s': State)
    requires forall r :: (r in s.flights && s.flights[r].Roomy?) || (r in s'.flights && s'.flights[r].Roomy?) ==>
                           r in s.flights && r in s'.flights && s.flights[r] == s'.flights[r]
    ensures s'.Pending() == s.Pending()
  {
  }

  lemma PassPends(c: Config, s: State, s': State)
    requires Inv(s) && RoomStep(c, s, s', Pass)
    ensures var k := s.mutex.scan;
            var need := s.flights[k.r].need;
            && Used(s.Table()) + need <= c.budget && k.r !in s.Pending()
            && s'.Pending() == s.Pending()[k.r := Inst(need, 0, 0)]
    ensures s'.Known() && s'.Table() == s.Table()
  {
    assert s.Table() - {} == s.Table();
    Unchanged(s, s');
  }

  lemma OneMorePending(p: Loaded, r: Ref, need: nat, used: nat, b: nat, k: nat)
    requires r !in p && |p[r := Inst(need, 0, 0)]| <= k && used + need <= b
    requires forall q :: q in p ==> p[q].memory <= b
    ensures used + Used(p[r := Inst(need, 0, 0)]) <= Budgets(k, b)
  {
    var p' := p[r := Inst(need, 0, 0)];
    UsedMore(p, r, Inst(need, 0, 0));
    UsedBound(p, b);
    assert p' - {r} == p;
    OneFewer(p', r);
    MoreBudgets(|p| + 1, k, b);
  }

  lemma PassBudget(c: Config, s: State, s': State, k: nat)
    requires Inv(s) && RoomStep(c, s, s', Pass) && PendingFit(c, s) && |s'.Pending()| <= k
    ensures PendingFit(c, s') && s'.Known() && Committed(s') <= Budgets(k, c.budget)
  {
    var r := s.mutex.scan.r;
    PassPends(c, s, s');
    OneMorePending(s.Pending(), r, s.flights[r].need, Used(s.Table()), c.budget, k);
  }

  lemma UnlinkUses(s: State, gone: set<Ref>, cause: Cause)
    requires Owned(s) && gone <= s.loaded.Keys
    ensures Unlink(s, gone, cause).Known()
    ensures Used(Unlink(s, gone, cause).Table()) <= Used(s.Table())
    ensures Unlink(s, gone, cause).Pending() == s.Pending()
  {
    var s' := Unlink(s, gone, cause);
    assert s'.Table() == s.Table() - gone;
    UsedPart(s.Table(), gone);
    PendingSame(s, s');
  }

  lemma InsertTable(c: Config, s: State, s': State, r: Ref)
    requires Inv(s) && LoadStep(c, s, s', Insert(r))
    ensures s'.Known() && r !in s.Table()
    ensures s'.Table() == s.Table()[r := Inst(s.flights[r].need, 0, s.clock)]
  {
  }

  lemma InsertPending(c: Config, s: State, s': State, r: Ref)
    requires Inv(s) && LoadStep(c, s, s', Insert(r))
    ensures r in s.Pending() && s.Pending()[r].memory == s.flights[r].need
    ensures s'.Pending() == s.Pending() - {r}
  {
  }

  lemma InsertCommits(c: Config, s: State, s': State, r: Ref)
    requires Inv(s) && LoadStep(c, s, s', Insert(r))
    ensures s'.Known() && Committed(s') == Committed(s)
    ensures s'.Pending() == s.Pending() - {r}
  {
    InsertTable(c, s, s', r);
    InsertPending(c, s, s', r);
    UsedMore(s.Table(), r, Inst(s.flights[r].need, 0, s.clock));
    UsedLess(s.Pending(), r);
  }

  /** What a step may do to the budget: nothing more is committed, and at most
      one load is no longer pending. */
  ghost predicate NoMore(s: State, s': State)
    requires s.Known()
  {
    && s'.Known() && Committed(s') <= Committed(s)
    && (s'.Pending() == s.Pending() || exists r :: s'.Pending() == s.Pending() - {r})
  }

  lemma FlightEnds(s: State, s': State, r: Ref)
    requires s.Known() && s'.Known() && s'.loaded == s.loaded && s'.lives == s.lives && s'.flights == s.flights - {r}
    ensures NoMore(s, s')
  {
    assert s'.Pending() == s.Pending() - {r};
    UsedPart(s.Pending(), {r});
    Unchanged(s, s');
  }

  lemma LoadCommits(c: Config, s: State, s': State, step: Step)
    requires Inv(s) && LoadStep(c, s, s', step) && c.budget > 0
    ensures NoMore(s, s')
  {
    if step.Insert? {
      InsertCommits(c, s, s', step.r);
    } else if step.Finish? {
      FlightEnds(s, s', step.r);
    } else {
      Unchanged(s, s');
      PendingSame(s, s');
    }
  }

  lemma RoomCommits(c: Config, s: State, s': State, step: Step)
    requires Inv(s) && RoomStep(c, s, s', step) && !step.Pass?
    ensures NoMore(s, s')
  {
    if step.Evict? {
      var gone := {s.mutex.scan.best.value};
      UnlinkUses(s, gone, Memory);
      Unchanged(Unlink(s, gone, Memory), s');
      PendingSame(s, s');
    } else if step.Refuse? {
      FlightEnds(s, s', s.mutex.scan.r);
    } else {
      Unchanged(s, s');
      PendingSame(s, s');
    }
  }

  lemma CallerCommits(s: State, s': State, step: Step)
    requires Inv(s) && CallerStep(s, s', step) && s'.Known()
    ensures NoMore(s, s')
  {
    CallerAges(s, s', step);
    UsedSame(s.Table(), s'.Table());
    PendingSame(s, s');
  }

  lemma ProcessCommits(s: State, s': State, step: Step)
    requires Inv(s) && ProcessStep(s, s', step)
    ensures NoMore(s, s')
  {
    var after := s;
    if step.Reap? && s.lives[step.id].ref in s.loaded && s.loaded[s.lives[step.id].ref] == step.id {
      UnlinkUses(s, {s.lives[step.id].ref}, Exit);
      after := Unlink(s, {s.lives[step.id].ref}, Exit);
    }
    Unchanged(after, s');
    PendingSame(after, s');
  }

  lemma SweepCommits(c: Config, s: State, s': State, step: Step)
    requires Inv(s) && SweepStep(c, s, s', step)
    ensures NoMore(s, s')
  {
    var after := s;
    if step.SweepDecide? && s.Table()[s.mutex.idle.value].lastUsed < s.mutex.cutoff {
      UnlinkUses(s, {s.mutex.idle.value}, Idle);
      after := Unlink(s, {s.mutex.idle.value}, Idle);
    }
    Unchanged(after, s');
    PendingSame(after, s');
  }

  /** Every step but a pass leaves no more committed than before. */
  lemma OtherSteps(c: Config, s: State, s': State, step: Step)
    requires Inv(s) && Inv(s') && Next(c, s, s', step) && !step.Pass? && c.budget > 0
    ensures NoMore(s, s')
  {
    if LoadStep(c, s, s', step) {
      LoadCommits(c, s, s', step);
    } else if RoomStep(c, s, s', step) {
      RoomCommits(c, s, s', step);
    } else if CallerStep(s, s', step) {
      CallerCommits(s, s', step);
    } else if ProcessStep(s, s', step) {
      ProcessCommits(s, s', step);
    } else if SweepStep(c, s, s', step) {
      SweepCommits(c, s, s', step);
    } else if step.Shutdown? {
      UnlinkUses(s, s.loaded.Keys, Stopped);
    } else {
      Unchanged(s, s');
      PendingSame(s, s');
    }
  }

  ghost predicate WithinBudget(c: Config, s: State, k: nat) {
    s.Known() && PendingFit(c, s) && Committed(s) <= Budgets(k, c.budget)
  }

  lemma BudgetStep(c: Config, s: State, s': State, step: Step, k: nat)
    requires Inv(s) && Inv(s') && Next(c, s, s', step) && c.budget > 0 && |s'.Pending()| <= k
    requires WithinBudget(c, s, k)
    ensures WithinBudget(c, s', k)
  {
    if step.Pass? {
      PassBudget(c, s, s', k);
    } else {
      OtherSteps(c, s, s', step);
    }
  }

  lemma InitWithin(c: Config, s: State, k: nat)
    requires Init(s)
    ensures WithinBudget(c, s, k)
  {
    assert s.Table() == map[] && s.Pending() == map[];
  }

  /** At most k loads that made room overlap. */
  ghost predicate Overlap(states: seq<State>, k: nat) {
    forall j :: 0 <= j < |states| ==> |states[j].Pending()| <= k
  }

  lemma RunWithin(c: Config, states: seq<State>, steps: seq<Step>, k: nat, i: nat, s: State, s': State)
    requires Run(c, states, steps) && 0 < i < |states| && s == states[i - 1] && s' == states[i]
    requires c.budget > 0 && |s'.Pending()| <= k && WithinBudget(c, s, k)
    ensures WithinBudget(c, s', k)
  {
    RunStep(c, states, steps, i, s, s', steps[i - 1]);
    BudgetStep(c, s, s', steps[i - 1], k);
  }

  lemma {:induction false} BudgetKept(c: Config, states: seq<State>, steps: seq<Step>, k: nat, i: nat)
    requires Run(c, states, steps) && Overlap(states, k) && i < |states| && c.budget > 0
    ensures WithinBudget(c, states[i], k)
  {
    if i == 0 {
      InitWithin(c, states[0], k);
    } else {
      BudgetKept(c, states, steps, k, i - 1);
      RunWithin(c, states, steps, k, i, states[i - 1], states[i]);
    }
  }

  /** The budget over all interleavings: while at most k loads that made room
      overlap, what is loaded and what they are loading never exceeds k times
      the budget. With k = 1 that is the budget itself. */
  lemma BudgetHolds(c: Config, states: seq<State>, steps: seq<Step>, k: nat, i: nat)
    requires Run(c, states, steps) && Overlap(states, k) && i < |states| && c.budget > 0
    ensures states[i].Known() && Committed(states[i]) <= k * c.budget
  {
    BudgetKept(c, states, steps, k, i);
    BudgetsIsProduct(k, c.budget);
  }

  // ----- the bound is reached

  /** A run, the state it has come to, and how many of its loads overlap. */
  ghost predicate Ending(c: Config, states: seq<State>, steps: seq<Step>, s: State, k: nat) {
    Run(c, states, steps) && states[|states| - 1] == s && Overlap(states, k)
  }

  /** The references the runs below load: one of each length. */
  function Name(i: nat): Ref {
    seq(i + 1, _ => 'a')
  }

  ghost function Names(n: nat): set<Ref> {
    if n == 0 then {} else Names(n - 1) + {Name(n - 1)}
  }

  lemma NameApart(i: nat, j: nat)
    requires i != j
    ensures Name(i) != Name(j)
  {
    assert |Name(i)| == i + 1 && |Name(j)| == j + 1;
  }

  lemma {:induction false} NamesHold(n: nat, r: Ref)
    ensures r in Names(n) <==> exists i: nat :: i < n && r == Name(i)
  {
    if n > 0 {
      NamesHold(n - 1, r);
    }
  }

  lemma {:induction false} NamesAre(n: nat)
    ensures |Names(n)| == n
    ensures forall i: nat :: Name(i) in Names(n) <==> i < n
  {
    forall i: nat
      ensures Name(i) in Names(n) <==> i < n
    {
      NamesHold(n, Name(i));
      forall j: nat | j != i
        ensures Name(j) != Name(i)
      {
        NameApart(i, j);
      }
    }
    if n > 0 {
      NamesAre(n - 1);
    }
  }

  lemma {:induction false} NamesGrow(n: nat, k: nat)
    requires n <= k
    ensures Names(n) <= Names(k)
  {
    if n < k {
      NamesGrow(n, k - 1);
    }
  }

  /** As many loads are pending as references are in flight, at most. */
  lemma PendingAtMost(s: State, n: nat)
    requires s.flights.Keys <= Names(n)
    ensures |s.Pending()| <= n
  {
    NamesAre(n);
    SubsetSize(s.Pending().Keys, Names(n));
  }

  lemma ExtendRun(c: Config, states: seq<State>, steps: seq<Step>, s: State, s': State, step: Step)
    requires Run(c, states, steps) && states[|states| - 1] == s && s.Known() && Next(c, s, s', step)
    ensures Run(c, states + [s'], steps + [step])
  {
    var states', steps' := states + [s'], steps + [step];
    forall i | 0 <= i < |steps'|
      ensures StepAt(c, states', steps', i)
    {
      if i < |steps| {
        assert StepAt(c, states, steps, i) && states'[i + 1] == states[i + 1];
      }
    }
  }

  lemma Extend(c: Config, states: seq<State>, steps: seq<Step>, s: State, s': State, step: Step, k: nat)
    returns (states': seq<State>, steps': seq<Step>)
    requires Ending(c, states, steps, s, k) && s.Known() && Next(c, s, s', step) && s'.flights.Keys <= Names(k)
    ensures Ending(c, states', steps', s', k)
  {
    states', steps' := states + [s'], steps + [step];
    ExtendRun(c, states, steps, s, s', step);
    PendingAtMost(s', k);
  }

  ghost function InFlight(s: State, r: Ref, f: Flight): State {
    s.(flights := s.flights[r := f])
  }

  lemma RequestStep(c: Config, s: State, r: Ref)
    requires s.Known() && s.mutex.Free? && r !in s.flights && r !in s.loaded
    ensures Next(c, s, InFlight(s, r, Started), Request(r))
    ensures Next(c, InFlight(s, r, Started), InFlight(s, r, Checked), Recheck(r))
  {
    assert s.flights[r := Started][r := Checked] == s.flights[r := Checked];
  }

  lemma SizeStep(c: Config, s: State, r: Ref, need: nat)
    requires s.Known()
    ensures Next(c, InFlight(s, r, Checked), InFlight(s, r, MakingRoom(need)), Size(r, need))
  {
    assert s.flights[r := Checked][r := MakingRoom(need)] == s.flights[r := MakingRoom(need)];
  }

  /** A load that has just taken the mutex to make room. */
  ghost function Held(s: State, r: Ref, need: nat): State {
    InFlight(s, r, MakingRoom(need)).Scanning(Scan(r, s.loaded.Keys, 0, Nothing, None, map[], false))
  }

  lemma LoadLooks(c: Config, states: seq<State>, steps: seq<Step>, s: State, r: Ref, k: nat)
    returns (states': seq<State>, steps': seq<Step>)
    requires Ending(c, states, steps, s, k) && s.Known() && s.mutex.Free? && r !in s.flights && r !in s.loaded
    requires s.flights.Keys + {r} <= Names(k)
    ensures Ending(c, states', steps', InFlight(s, r, Checked), k)
  {
    RequestStep(c, s, r);
    var s1 := InFlight(s, r, Started);
    states', steps' := Extend(c, states, steps, s, s1, Request(r), k);
    states', steps' := Extend(c, states', steps', s1, InFlight(s, r, Checked), Recheck(r), k);
  }

  lemma HoldStep(c: Config, s: State, r: Ref, need: nat)
    requires s.Known() && s.mutex.Free? && 0 < c.budget && need <= c.budget
    ensures InFlight(s, r, MakingRoom(need)).Known()
    ensures Next(c, InFlight(s, r, MakingRoom(need)), Held(s, r, need), Hold(r))
    ensures Held(s, r, need).flights.Keys == s.flights.Keys + {r}
  {
  }

  /** A load of the whole budget, up to taking the mutex to make room. */
  lemma LoadHolds(c: Config, states: seq<State>, steps: seq<Step>, s: State, r: Ref, k: nat)
    returns (states': seq<State>, steps': seq<Step>)
    requires Ending(c, states, steps, s, k) && s.Known() && s.mutex.Free? && r !in s.flights && r !in s.loaded
    requires c.budget > 0 && s.flights.Keys + {r} <= Names(k)
    ensures Ending(c, states', steps', Held(s, r, c.budget), k)
  {
    states', steps' := LoadLooks(c, states, steps, s, r, k);
    SizeStep(c, s, r, c.budget);
    HoldStep(c, s, r, c.budget);
    var s3 := InFlight(s, r, MakingRoom(c.budget));
    states', steps' := Extend(c, states', steps', InFlight(s, r, Checked), s3, Size(r, c.budget), k);
    states', steps' := Extend(c, states', steps', s3, Held(s, r, c.budget), Hold(r), k);
  }

  lemma PassStep(c: Config, s: State, r: Ref, need: nat)
    requires s.loaded == map[] && s.mutex.Free? && need <= c.budget
    ensures Next(c, Held(s, r, need), InFlight(s, r, Roomy(need)), Pass)
  {
    assert s.flights[r := MakingRoom(need)][r := Roomy(need)] == s.flights[r := Roomy(need)];
    assert s.loaded.Keys == {};
  }

  /** A load meets an empty table, is sized at the whole budget, and passes. */
  lemma PassesAlone(c: Config, states: seq<State>, steps: seq<Step>, s: State, r: Ref, k: nat)
    returns (states': seq<State>, steps': seq<Step>)
    requires Ending(c, states, steps, s, k) && s.loaded == map[] && s.mutex.Free? && r !in s.flights
    requires c.budget > 0 && s.flights.Keys + {r} <= Names(k)
    ensures Ending(c, states', steps', InFlight(s, r, Roomy(c.budget)), k)
  {
    states', steps' := LoadHolds(c, states, steps, s, r, k);
    PassStep(c, s, r, c.budget);
    states', steps' := Extend(c, states', steps', Held(s, r, c.budget), InFlight(s, r, Roomy(c.budget)), Pass, k);
  }

  /** The first n names, each with a whole budget promised and none loaded. */
  ghost predicate Promised(s: State, n: nat, b: nat) {
    && s.loaded == map[] && s.lives == map[] && s.mutex.Free? && s.next == 0 && s.clock == 0
    && s.flights.Keys == Names(n) && forall r :: r in s.flights ==> s.flights[r] == Roomy(b)
  }

  lemma PromiseOne(s: State, n: nat, k: nat, b: nat)
    requires Promised(s, n, b) && n < k
    ensures Name(n) !in s.flights && s.flights.Keys + {Name(n)} <= Names(k)
    ensures Promised(InFlight(s, Name(n), Roomy(b)), n + 1, b)
  {
    NamesAre(n);
    NamesAre(k);
    NamesGrow(n, k);
  }

  lemma {:induction false} PromiseAll(c: Config, n: nat, k: nat)
    returns (states: seq<State>, steps: seq<Step>, s: State)
    requires n <= k && c.budget > 0
    ensures Ending(c, states, steps, s, k) && Promised(s, n, c.budget)
    decreases n
  {
    if n == 0 {
      states, steps, s := StartRun(c, k);
    } else {
      var m := n - 1;
      var before, moves, last := PromiseAll(c, m, k);
      states, steps, s := PromiseNext(c, before, moves, last, m, n, k);
    }
  }

  lemma StartRun(c: Config, k: nat) returns (states: seq<State>, steps: seq<Step>, s: State)
    ensures Ending(c, states, steps, s, k) && Promised(s, 0, c.budget) && steps == []
  {
    s := State(map[], map[], map[], Free, 0, 0);
    states, steps := [s], [];
    assert s.Pending() == map[];
  }

  lemma PromiseNext(c: Config, states: seq<State>, steps: seq<Step>, s: State, n: nat, n': nat, k: nat)
    returns (states': seq<State>, steps': seq<Step>, s': State)
    requires Ending(c, states, steps, s, k) && Promised(s, n, c.budget) && n < k && n' == n + 1 && c.budget > 0
    ensures Ending(c, states', steps', s', k) && Promised(s', n', c.budget)
  {
    PromiseOne(s, n, k, c.budget);
    s' := InFlight(s, Name(n), Roomy(c.budget));
    states', steps' := PassesAlone(c, states, steps, s, Name(n), k);
  }

  ghost predicate LoadedAt(s: State, i: nat, b: nat) {
    && Name(i) in s.loaded && s.loaded[Name(i)] == i
    && i in s.lives && s.lives[i] == Life(Name(i), Inst(b, 0, i), 0, true, false, None)
  }

  ghost predicate PromisedAt(s: State, i: nat, b: nat) {
    Name(i) in s.flights && s.flights[Name(i)] == Roomy(b)
  }

  /** The first n names loaded at the whole budget each, a tick apart, and the
      rest up to k promised it. */
  ghost predicate Filled(s: State, n: nat, k: nat, b: nat) {
    && n <= k && s.mutex.Free? && s.next == n && s.clock == n
    && s.loaded.Keys == Names(n) && s.flights.Keys == Names(k)
    && (forall i: nat :: i < n ==> LoadedAt(s, i, b))
    && (forall i: nat :: n <= i < k ==> PromisedAt(s, i, b))
  }

  ghost function Inserted(s: State, r: Ref, need: nat): State {
    s.(loaded := s.loaded[r := s.next],
       lives := s.lives[s.next := Life(r, Inst(need, 0, s.clock), 0, true, false, None)],
       flights := s.flights[r := Landed(s.next)], next := s.next + 1)
  }

  lemma FilledKnown(s: State, n: nat, k: nat, b: nat)
    requires Filled(s, n, k, b)
    ensures s.Known() && forall r :: r in s.loaded ==> s.Table()[r].memory == b
  {
    forall r | r in s.loaded
      ensures s.loaded[r] in s.lives && s.lives[s.loaded[r]].inst.memory == b
    {
      NamesHold(n, r);
      var i: nat :| i < n && r == Name(i);
      assert LoadedAt(s, i, b);
    }
  }

  lemma FillOne(s: State, n: nat, k: nat, b: nat)
    requires Filled(s, n, k, b) && n < k
    ensures Filled(Inserted(s, Name(n), b).(clock := s.clock + 1), n + 1, k, b)
  {
    var s' := Inserted(s, Name(n), b).(clock := s.clock + 1);
    FillKeys(s, n, k, b);
    forall i: nat | i < n + 1
      ensures LoadedAt(s', i, b)
    {
      OneLoaded(s, n, i, b);
    }
    forall i: nat | n + 1 <= i < k
      ensures PromisedAt(s', i, b)
    {
      assert PromisedAt(s, i, b);
      OnePromised(s, n, i, b);
    }
  }

  lemma FillKeys(s: State, n: nat, k: nat, b: nat)
    requires n < k && s.loaded.Keys == Names(n) && s.flights.Keys == Names(k)
    ensures Inserted(s, Name(n), b).loaded.Keys == Names(n + 1)
    ensures Inserted(s, Name(n), b).flights.Keys == Names(k)
  {
    NamesAre(k);
  }

  lemma OneLoaded(s: State, n: nat, i: nat, b: nat)
    requires s.next == n && s.clock == n && i <= n && (i < n ==> LoadedAt(s, i, b))
    ensures LoadedAt(Inserted(s, Name(n), b).(clock := s.clock + 1), i, b)
  {
    if i != n {
      NameApart(i, n);
    }
  }

  lemma OnePromised(s: State, n: nat, i: nat, b: nat)
    requires i > n && PromisedAt(s, i, b)
    ensures PromisedAt(Inserted(s, Name(n), b).(clock := s.clock + 1), i, b)
  {
    if i != n {
      NameApart(i, n);
    }
  }

  lemma InsertStep(c: Config, s: State, n: nat, k: nat, b: nat)
    requires Filled(s, n, k, b) && n < k
    ensures s.Known() && Next(c, s, Inserted(s, Name(n), b), Insert(Name(n)))
    ensures Inserted(s, Name(n), b).Known() && Inserted(s, Name(n), b).flights.Keys == Names(k)
  {
    FilledKnown(s, n, k, b);
    assert PromisedAt(s, n, b);
    assert LoadStep(c, s, Inserted(s, Name(n), b), Insert(Name(n)));
    assert s.flights[Name(n) := Landed(s.next)].Keys == s.flights.Keys;
  }

  lemma {:induction false} FillAll(c: Config, n: nat, k: nat)
    returns (states: seq<State>, steps: seq<Step>, s: State)
    requires n <= k && c.budget > 0
    ensures Ending(c, states, steps, s, k) && Filled(s, n, k, c.budget)
    decreases n
  {
    if n == 0 {
      states, steps, s := PromiseAll(c, k, k);
      PromisedNames(s, k, c.budget);
    } else {
      states, steps, s := FillAll(c, n - 1, k);
      states, steps, s := FillNext(c, states, steps, s, n - 1, k);
    }
  }

  lemma FillNext(c: Config, states: seq<State>, steps: seq<Step>, s: State, n: nat, k: nat)
    returns (states': seq<State>, steps': seq<Step>, s': State)
    requires Ending(c, states, steps, s, k) && Filled(s, n, k, c.budget) && n < k && c.budget > 0
    ensures Ending(c, states', steps', s', k) && Filled(s', n + 1, k, c.budget)
  {
    InsertStep(c, s, n, k, c.budget);
    var s1 := Inserted(s, Name(n), c.budget);
    states', steps' := Extend(c, states, steps, s, s1, Insert(Name(n)), k);
    s' := s1.(clock := s1.clock + 1);
    FillOne(s, n, k, c.budget);
    states', steps' := Extend(c, states', steps', s1, s', Tick, k);
  }

  lemma PromisedNames(s: State, k: nat, b: nat)
    requires Promised(s, k, b)
    ensures Filled(s, 0, k, b)
  {
    NamesAre(k);
    forall i: nat | i < k
      ensures PromisedAt(s, i, b)
    {
      assert |Name(i)| == i + 1;
    }
  }

  lemma {:induction false} EqualParts(m: Loaded, b: nat)
    requires forall r :: r in m ==> m[r].memory == b
    ensures Used(m) == Budgets(|m|, b)
    decreases |m|
  {
    if r :| r in m {
      UsedLess(m, r);
      OneFewer(m, r);
      EqualParts(m - {r}, b);
    }
  }

  lemma FilledUses(s: State, k: nat, b: nat)
    requires Filled(s, k, k, b)
    ensures s.Known() && Used(s.Table()) == k * b
  {
    FilledKnown(s, k, k, b);
    NamesAre(k);
    EqualParts(s.Table(), b);
    SameCount(s.Table(), Names(k));
    BudgetsIsProduct(k, b);
  }

  lemma SameCount(m: Loaded, names: set<Ref>)
    requires m.Keys == names
    ensures |m| == |names|
  {
  }

  /** And the bound is reached, for every k: the mutex is dropped between making
      room and inserting, so k loads can each be promised the whole budget and
      all of them be loaded. From two on that is past the plain budget. */
  lemma OverlapReachesTheBound(c: Config, k: nat)
    returns (states: seq<State>, steps: seq<Step>)
    requires c.budget > 0
    ensures Run(c, states, steps) && Overlap(states, k)
    ensures var last := states[|states| - 1]; last.Known() && Used(last.Table()) == k * c.budget
  {
    var s;
    states, steps, s := FillAll(c, k, k);
    FilledUses(s, k, c.budget);
  }
}
