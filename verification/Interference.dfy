/** Runs in which a request slips in while the table is looked over: a busy
    instance is unloaded, and one more recent than another that stays. */
module Interference {
  import opened Wrappers
  import opened Instances
  import opened Router
  import opened Budget
  import opened Eviction

  lemma MoreOverlap(c: Config, states: seq<State>, steps: seq<Step>, s: State, k: nat)
    requires Ending(c, states, steps, s, k)
    ensures Ending(c, states, steps, s, k + 1)
  {
  }

  ghost function Taken(s: State, id: Id): State
    requires id in s.lives
  {
    s.With(id, s.lives[id].(inst := s.lives[id].inst.Touched(s.clock), inHand := s.lives[id].inHand + 1))
  }

  ghost function Begun(s: State, id: Id): State
    requires id in s.lives && s.lives[id].inHand > 0
  {
    s.With(id, s.lives[id].(inst := s.lives[id].inst.Began(s.clock), inHand := s.lives[id].inHand - 1))
  }

  lemma DoTake(c: Config, states: seq<State>, steps: seq<Step>, s: State, id: Id, k: nat)
    returns (states': seq<State>, steps': seq<Step>)
    requires Ending(c, states, steps, s, k) && s.Known() && s.flights.Keys <= Names(k) && id in s.lives
    ensures Ending(c, states', steps', Taken(s, id), k) && Taken(s, id).Known()
  {
    assert CallerStep(s, Taken(s, id), Take(id));
    states', steps' := Extend(c, states, steps, s, Taken(s, id), Take(id), k);
  }

  lemma DoBegin(c: Config, states: seq<State>, steps: seq<Step>, s: State, id: Id, k: nat)
    returns (states': seq<State>, steps': seq<Step>)
    requires Ending(c, states, steps, s, k) && s.Known() && s.flights.Keys <= Names(k)
    requires id in s.lives && s.lives[id].inHand > 0
    ensures Ending(c, states', steps', Begun(s, id), k) && Begun(s, id).Known()
  {
    assert CallerStep(s, Begun(s, id), Begin(id));
    states', steps' := Extend(c, states, steps, s, Begun(s, id), Begin(id), k);
  }

  ghost function LookedAt(c: Config, s: State, q: Ref): State
    requires s.Known() && s.mutex.ForRoom? && q in s.loaded
  {
    s.Scanning(AfterLook(c, s.mutex.scan, q, s.Table()[q]))
  }

  lemma DoLook(c: Config, states: seq<State>, steps: seq<Step>, s: State, q: Ref, k: nat)
    returns (states': seq<State>, steps': seq<Step>)
    requires Ending(c, states, steps, s, k) && s.Known() && s.flights.Keys <= Names(k)
    requires s.mutex.ForRoom? && s.mutex.scan.glance.Nothing? && q in s.mutex.scan.todo && q in s.loaded
    ensures Ending(c, states', steps', LookedAt(c, s, q), k)
  {
    assert RoomStep(c, s, LookedAt(c, s, q), Look(q));
    states', steps' := Extend(c, states, steps, s, LookedAt(c, s, q), Look(q), k);
  }

  /** A later look: the last use of the one found idle is read, and compared
      with the candidate's. */
  ghost function Weighed(c: Config, s: State, q: Ref): State
    requires s.Known() && s.mutex.ForRoom? && q in s.loaded
    requires s.mutex.scan.best.Some? && s.mutex.scan.best.value in s.mutex.scan.seen && s.mutex.scan.best.value in s.loaded
  {
    var k := s.mutex.scan;
    var next := k.(todo := k.todo - {q}, used := k.used + s.Table()[q].memory, glance := LastRead(q, s.Table()[q].lastUsed));
    s.Scanning(AfterCompare(next, s.Table()[k.best.value].lastUsed))
  }

  lemma DoWeigh(c: Config, states: seq<State>, steps: seq<Step>, s: State, q: Ref, k: nat)
    returns (states': seq<State>, steps': seq<Step>)
    requires Ending(c, states, steps, s, k) && s.Known() && s.flights.Keys <= Names(k)
    requires s.mutex.ForRoom? && s.mutex.scan.glance.Nothing? && q in s.mutex.scan.todo && Evictable(c.keep, s.Table(), q)
    requires s.mutex.scan.best.Some? && s.mutex.scan.best.value in s.mutex.scan.seen && s.mutex.scan.best.value in s.loaded
    ensures Ending(c, states', steps', Weighed(c, s, q), k)
  {
    var s1 := LookedAt(c, s, q);
    states', steps' := DoLook(c, states, steps, s, q, k);
    var s2 := s1.Scanning(s1.mutex.scan.(glance := LastRead(q, s.Table()[q].lastUsed)));
    assert s1.Table() == s.Table() && s2.Table() == s.Table();
    assert RoomStep(c, s1, s2, ReadLast);
    states', steps' := Extend(c, states', steps', s1, s2, ReadLast, k);
    assert RoomStep(c, s2, Weighed(c, s, q), Compare);
    states', steps' := Extend(c, states', steps', s2, Weighed(c, s, q), Compare, k);
  }

  ghost function Evicted(s: State, q: Ref): State
    requires s.Known()
  {
    Unlink(s, {q}, Memory).(mutex := Free)
  }

  lemma DoEvict(c: Config, states: seq<State>, steps: seq<Step>, s: State, q: Ref, k: nat)
    returns (states': seq<State>, steps': seq<Step>)
    requires Ending(c, states, steps, s, k) && s.Known() && s.flights.Keys <= Names(k)
    requires s.mutex.ForRoom? && AllRead(s.mutex.scan) && s.mutex.scan.best == Some(q)
    requires s.mutex.scan.r in s.flights && s.flights[s.mutex.scan.r].MakingRoom?
    requires s.mutex.scan.used + s.flights[s.mutex.scan.r].need > c.budget
    ensures Ending(c, states', steps', Evicted(s, q), k)
    ensures |steps'| == |steps| + 1 && steps'[|steps|] == Evict && states'[|steps|] == s
  {
    assert RoomStep(c, s, Evicted(s, q), Evict);
    states', steps' := states + [Evicted(s, q)], steps + [Evict];
    ExtendRun(c, states, steps, s, Evicted(s, q), Evict);
    PendingAtMost(Evicted(s, q), k);
  }

  // ----- a busy victim

  /** A caller has the only instance in hand, and another load holds the mutex
      to make room. */
  lemma CallerWaits(c: Config) returns (states: seq<State>, steps: seq<Step>, s: State)
    requires c.budget > 0
    ensures Ending(c, states, steps, s, 2) && s.Known() && s.flights.Keys <= Names(2) && s.clock == 1
    ensures s.loaded == map[Name(0) := 0] && 0 in s.lives
    ensures s.lives[0] == Life(Name(0), Inst(c.budget, 0, 1), 1, true, false, None)
    ensures Name(1) in s.flights && s.flights[Name(1)] == MakingRoom(c.budget)
    ensures s.mutex == ForRoom(Scan(Name(1), {Name(0)}, 0, Nothing, None, map[], false))
  {
    states, steps, s := FillAll(c, 1, 1);
    FilledKnown(s, 1, 1, c.budget);
    MoreOverlap(c, states, steps, s, 1);
    NamesAre(1);
    NamesAre(2);
    NamesGrow(1, 2);
    assert LoadedAt(s, 0, c.budget) && Names(1) == {Name(0)};
    states, steps := DoTake(c, states, steps, s, 0, 2);
    s := Taken(s, 0);
    states, steps := LoadHolds(c, states, steps, s, Name(1), 2);
    s := Held(s, Name(1), c.budget);
  }

  /** A victim may be serving a request: its caller begins between the reading
      of its count and its unlinking, which take different mutexes. */
  lemma BusyVictim(c: Config) returns (states: seq<State>, steps: seq<Step>, id: Id)
    requires c.budget > 0 && Name(0) !in c.keep
    ensures Run(c, states, steps) && id in states[|steps|].lives
    ensures states[|steps|].lives[id].left == Some((Memory, Inst(c.budget, 1, 1)))
  {
    var s0;
    states, steps, s0 := CallerWaits(c);
    id := 0;
    var s1 := LookedAt(c, s0, Name(0));
    states, steps := DoLook(c, states, steps, s0, Name(0), 2);
    states, steps := DoBegin(c, states, steps, s1, 0, 2);
    states, steps := DoEvict(c, states, steps, Begun(s1, 0), Name(0), 2);
  }

  // ----- a recent victim

  /** Three instances loaded a tick apart, and a load holding the mutex. */
  lemma ThreeWait(c: Config) returns (states: seq<State>, steps: seq<Step>, s: State)
    requires c.budget > 0
    ensures Ending(c, states, steps, s, 4) && s.Known() && s.flights.Keys <= Names(4) && s.clock == 3
    ensures s.loaded.Keys == {Name(0), Name(1), Name(2)}
    ensures LoadedAt(s, 0, c.budget) && LoadedAt(s, 1, c.budget) && LoadedAt(s, 2, c.budget)
    ensures Name(3) in s.flights && s.flights[Name(3)] == MakingRoom(c.budget)
    ensures s.mutex == ForRoom(Scan(Name(3), {Name(0), Name(1), Name(2)}, 0, Nothing, None, map[], false))
  {
    states, steps, s := FillAll(c, 3, 3);
    FilledKnown(s, 3, 3, c.budget);
    MoreOverlap(c, states, steps, s, 3);
    NamesAre(3);
    NamesAre(4);
    NamesGrow(3, 4);
    ThreeNames();
    assert LoadedAt(s, 0, c.budget) && LoadedAt(s, 1, c.budget) && LoadedAt(s, 2, c.budget);
    states, steps := LoadHolds(c, states, steps, s, Name(3), 4);
    s := Held(s, Name(3), c.budget);
  }

  lemma ThreeNames()
    ensures Names(3) == {Name(0), Name(1), Name(2)}
    ensures Name(0) != Name(1) && Name(0) != Name(2) && Name(1) != Name(2)
  {
    assert Names(1) == {Name(0)} && Names(2) == {Name(0), Name(1)};
    NameApart(0, 1);
    NameApart(0, 2);
    NameApart(1, 2);
  }

  /** What the runs below keep to: the second and third instance as loaded. */
  ghost predicate TwoAsLoaded(c: Config, s: State) {
    && s.Known() && s.flights.Keys <= Names(4) && s.clock == 3
    && s.loaded.Keys == {Name(0), Name(1), Name(2)} && Name(0) in s.loaded && s.loaded[Name(0)] == 0
    && LoadedAt(s, 1, c.budget) && LoadedAt(s, 2, c.budget)
    && Name(3) in s.flights && s.flights[Name(3)] == MakingRoom(c.budget)
  }

  ghost predicate NotKept(c: Config) {
    c.budget > 0 && Name(0) !in c.keep && Name(1) !in c.keep && Name(2) !in c.keep
  }

  lemma FirstIsCandidate(c: Config) returns (states: seq<State>, steps: seq<Step>, s: State)
    requires NotKept(c)
    ensures Ending(c, states, steps, s, 4) && TwoAsLoaded(c, s) && LoadedAt(s, 0, c.budget)
    ensures s.mutex == ForRoom(Scan(Name(3), {Name(1), Name(2)}, c.budget, Nothing, Some(Name(0)), map[Name(0) := 0], false))
  {
    states, steps, s := ThreeWait(c);
    states, steps := DoLook(c, states, steps, s, Name(0), 4);
    FirstAdopted(c, s);
    s := LookedAt(c, s, Name(0));
  }

  lemma FirstAdopted(c: Config, s: State)
    requires NotKept(c) && TwoAsLoaded(c, s) && LoadedAt(s, 0, c.budget)
    requires s.mutex == ForRoom(Scan(Name(3), {Name(0), Name(1), Name(2)}, 0, Nothing, None, map[], false))
    ensures LookedAt(c, s, Name(0)).mutex
            == ForRoom(Scan(Name(3), {Name(1), Name(2)}, c.budget, Nothing, Some(Name(0)), map[Name(0) := 0], false))
  {
    ThreeNames();
    assert s.Table()[Name(0)] == Inst(c.budget, 0, 0);
  }

  lemma SecondIsRead(c: Config) returns (states: seq<State>, steps: seq<Step>, s: State)
    requires NotKept(c)
    ensures Ending(c, states, steps, s, 4) && TwoAsLoaded(c, s) && LoadedAt(s, 0, c.budget)
    ensures s.mutex == ForRoom(Scan(Name(3), {Name(2)}, c.budget + c.budget, Nothing, Some(Name(0)),
                                    map[Name(0) := 0, Name(1) := 1], false))
  {
    states, steps, s := FirstIsCandidate(c);
    states, steps := DoWeigh(c, states, steps, s, Name(1), 4);
    SecondWeighed(c, s);
    s := Weighed(c, s, Name(1));
  }

  lemma SecondWeighed(c: Config, s: State)
    requires NotKept(c) && TwoAsLoaded(c, s) && LoadedAt(s, 0, c.budget)
    requires s.mutex
             == ForRoom(Scan(Name(3), {Name(1), Name(2)}, c.budget, Nothing, Some(Name(0)), map[Name(0) := 0], false))
    ensures Weighed(c, s, Name(1)).mutex
            == ForRoom(Scan(Name(3), {Name(2)}, c.budget + c.budget, Nothing, Some(Name(0)),
                            map[Name(0) := 0, Name(1) := 1], false))
  {
    ThreeNames();
    assert s.Table()[Name(0)] == Inst(c.budget, 0, 0) && s.Table()[Name(1)] == Inst(c.budget, 0, 1);
  }

  lemma CandidateIsUsed(c: Config) returns (states: seq<State>, steps: seq<Step>, s: State)
    requires NotKept(c)
    ensures Ending(c, states, steps, s, 4) && TwoAsLoaded(c, s)
    ensures 0 in s.lives && s.lives[0].inst == Inst(c.budget, 0, 3)
    ensures s.mutex == ForRoom(Scan(Name(3), {Name(2)}, c.budget + c.budget, Nothing, Some(Name(0)),
                                    map[Name(0) := 0, Name(1) := 1], false))
  {
    states, steps, s := SecondIsRead(c);
    ThreeNames();
    states, steps := DoTake(c, states, steps, s, 0, 4);
    s := Taken(s, 0);
  }

  lemma ThirdIsChosen(c: Config) returns (states: seq<State>, steps: seq<Step>, s: State)
    requires NotKept(c)
    ensures Ending(c, states, steps, s, 4) && TwoAsLoaded(c, s)
    ensures s.mutex.ForRoom? && AllRead(s.mutex.scan) && s.mutex.scan.r == Name(3)
    ensures s.mutex.scan.best == Some(Name(2)) && s.mutex.scan.used >= c.budget
  {
    states, steps, s := CandidateIsUsed(c);
    ThreeNames();
    states, steps := DoWeigh(c, states, steps, s, Name(2), 4);
    s := Weighed(c, s, Name(2));
  }

  /** Both are idle and unpinned, and the candidate is the more recent. */
  ghost predicate PassesOver(c: Config, s: State, kept: Ref, victim: Ref) {
    && s.Known() && s.mutex.ForRoom? && s.mutex.scan.best == Some(victim)
    && Evictable(c.keep, s.Table(), kept) && Evictable(c.keep, s.Table(), victim)
    && s.Table()[kept].lastUsed < s.Table()[victim].lastUsed
  }

  lemma SecondIsPassedOver(c: Config, s: State)
    requires NotKept(c) && TwoAsLoaded(c, s) && s.mutex.ForRoom? && s.mutex.scan.best == Some(Name(2))
    ensures PassesOver(c, s, Name(1), Name(2))
  {
    assert s.Table()[Name(1)] == Inst(c.budget, 0, 1) && s.Table()[Name(2)] == Inst(c.budget, 0, 2);
  }

  /** A victim may be more recent than an idle instance that stays: a candidate
      was used meanwhile, and is given up for one that only its new last use
      makes look old. */
  lemma RecentVictim(c: Config) returns (states: seq<State>, steps: seq<Step>, m: nat, s: State)
    requires NotKept(c)
    ensures Run(c, states, steps) && m < |steps| && steps[m] == Evict && states[m] == s
    ensures PassesOver(c, s, Name(1), Name(2))
  {
    states, steps, s := ThirdIsChosen(c);
    SecondIsPassedOver(c, s);
    m := |steps|;
    states, steps := DoEvict(c, states, steps, s, Name(2), 4);
  }
}
