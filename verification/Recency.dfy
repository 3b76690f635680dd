/** How recently used a victim is: by what was read of it and the others, and as
    it is unlinked; with runs where a request slips in between. */
module Recency {
  import opened Wrappers
  import opened Instances
  import opened Router
  import opened Budget
  import opened Eviction

  /** The last use read of q, if it has been. */
  ghost function LastReadOf(s: State, q: Ref): Option<nat> {
    if !s.mutex.ForRoom? then None
    else if q in s.mutex.scan.seen then Some(s.mutex.scan.seen[q])
    else if s.mutex.scan.glance.LastRead? && s.mutex.scan.glance.q == q then Some(s.mutex.scan.glance.at)
    else None
  }

  lemma RecencyStep(c: Config, s: State, s': State, step: Step, q: Ref)
    requires Inv(s) && Next(c, s, s', step) && LastReadOf(s', q).Some?
    ensures RecencyGoesOn(s, s', q)
  {
    if RoomStep(c, s, s', step) {
      RoomRecency(c, s, s', step, q);
    } else if s.mutex.ForRoom? {
      InvStep(c, s, s', step);
      OthersAge(c, s, s', step);
    } else {
      NoScanBegins(c, s, s', step);
    }
  }

  ghost predicate RecencyGoesOn(s: State, s': State, q: Ref) {
    && s.Known() && s.mutex.ForRoom? && s'.mutex.ForRoom? && q in s.loaded && q in s'.loaded && s.loaded[q] == s'.loaded[q]
    && (LastReadOf(s, q) == LastReadOf(s', q)
        || (LastReadOf(s, q).None? && LastReadOf(s', q) == Some(s.Table()[q].lastUsed)))
  }

  lemma NoScanBegins(c: Config, s: State, s': State, step: Step)
    requires Inv(s) && Next(c, s, s', step) && !RoomStep(c, s, s', step) && !s.mutex.ForRoom?
    ensures !s'.mutex.ForRoom?
  {
  }

  lemma RoomRecency(c: Config, s: State, s': State, step: Step, q: Ref)
    requires Inv(s) && RoomStep(c, s, s', step) && LastReadOf(s', q).Some?
    ensures RecencyGoesOn(s, s', q)
  {
  }

  lemma RunRecency(c: Config, states: seq<State>, steps: seq<Step>, j: nat, s: State, s': State, q: Ref)
    requires Run(c, states, steps) && 0 < j < |states| && LastReadOf(s', q).Some?
    requires s == states[j - 1] && s' == states[j]
    ensures RecencyGoesOn(s, s', q)
  {
    RunStep(c, states, steps, j, s, s', steps[j - 1]);
    RecencyStep(c, s, s', steps[j - 1], q);
  }

  /** What was read of q is how it stood at step i of the same round. */
  ghost predicate ReadThen(states: seq<State>, i: nat, j: nat, q: Ref) {
    && i < j < |states| && SameRound(states, i, j, q) && states[i].Known()
    && LastReadOf(states[j], q) == Some(states[i].Table()[q].lastUsed)
  }

  lemma {:induction false} WasReadLast(c: Config, states: seq<State>, steps: seq<Step>, j: nat, q: Ref) returns (i: nat)
    requires Run(c, states, steps) && j < |states| && LastReadOf(states[j], q).Some?
    ensures ReadThen(states, i, j, q)
    decreases j
  {
    assert j > 0;
    RunRecency(c, states, steps, j, states[j - 1], states[j], q);
    if LastReadOf(states[j - 1], q).Some? {
      i := WasReadLast(c, states, steps, j - 1, q);
      RoundGrows(states, i, j, q);
    } else {
      i := j - 1;
    }
  }

  predicate Uses(step: Step, id: Id) {
    step == Take(id) || step == Begin(id) || step == End(id)
  }

  lemma UnusedStep(c: Config, s: State, s': State, step: Step, id: Id)
    requires Inv(s) && Next(c, s, s', step) && id in s.lives && !Uses(step, id)
    ensures id in s'.lives && s'.lives[id].inst == s.lives[id].inst
  {
    if LoadStep(c, s, s', step) {
      LoadUnused(c, s, s', step, id);
    } else if RoomStep(c, s, s', step) {
      RoomUnused(c, s, s', step, id);
    } else if SweepStep(c, s, s', step) {
      SweepUnused(c, s, s', step, id);
    }
  }

  lemma LoadUnused(c: Config, s: State, s': State, step: Step, id: Id)
    requires Inv(s) && LoadStep(c, s, s', step) && id in s.lives
    ensures id in s'.lives && s'.lives[id].inst == s.lives[id].inst
  {
  }

  lemma RoomUnused(c: Config, s: State, s': State, step: Step, id: Id)
    requires Inv(s) && RoomStep(c, s, s', step) && id in s.lives
    ensures id in s'.lives && s'.lives[id].inst == s.lives[id].inst
  {
  }

  lemma SweepUnused(c: Config, s: State, s': State, step: Step, id: Id)
    requires Inv(s) && SweepStep(c, s, s', step) && id in s.lives
    ensures id in s'.lives && s'.lives[id].inst == s.lives[id].inst
  {
  }

  lemma RunUnused(c: Config, states: seq<State>, steps: seq<Step>, j: nat, s: State, s': State, step: Step, id: Id)
    requires Run(c, states, steps) && 0 < j < |states| && id in s.lives && !Uses(step, id)
    requires s == states[j - 1] && s' == states[j] && step == steps[j - 1]
    ensures id in s'.lives && s'.lives[id].inst == s.lives[id].inst
  {
    RunStep(c, states, steps, j, s, s', step);
    UnusedStep(c, s, s', step, id);
  }

  /** Only its callers change how an instance stands. */
  lemma {:induction false} UnusedStays(c: Config, states: seq<State>, steps: seq<Step>, i: nat, j: nat, id: Id)
    requires Run(c, states, steps) && i <= j < |states| && id in states[i].lives
    requires forall u :: i <= u < j ==> !Uses(steps[u], id)
    ensures id in states[j].lives && states[j].lives[id].inst == states[i].lives[id].inst
    decreases j
  {
    if i < j {
      UnusedStays(c, states, steps, i, j - 1, id);
      RunUnused(c, states, steps, j, states[j - 1], states[j], steps[j - 1], id);
    }
  }

  /** What an instance's last use is: the time of the latest use of it, or of its
      insertion when there was none. */
  lemma {:induction false} LastUseIs(c: Config, states: seq<State>, steps: seq<Step>, j: nat, id: Id) returns (i: nat)
    requires Run(c, states, steps) && j < |states| && id in states[j].lives
    ensures i < j && (Uses(steps[i], id) || (steps[i].Insert? && states[i].next == id))
    ensures states[j].lives[id].inst.lastUsed == states[i].clock
    ensures forall u :: i < u < j ==> !Uses(steps[u], id)
    decreases j
  {
    assert j > 0;
    i := j - 1;
    RunTouches(c, states, steps, j, states[j - 1], states[j], steps[j - 1], id);
    if id in states[j - 1].lives && !Uses(steps[j - 1], id) {
      i := LastUseIs(c, states, steps, j - 1, id);
    }
  }

  lemma RunTouches(c: Config, states: seq<State>, steps: seq<Step>, j: nat, s: State, s': State, step: Step, id: Id)
    requires Run(c, states, steps) && 0 < j < |states| && id in s'.lives
    requires s == states[j - 1] && s' == states[j] && step == steps[j - 1]
    ensures id !in s.lives ==> step.Insert? && s.next == id
    ensures if id in s.lives && !Uses(step, id) then s'.lives[id].inst == s.lives[id].inst
            else s'.lives[id].inst.lastUsed == s.clock
  {
    RunStep(c, states, steps, j, s, s', step);
    if id !in s.lives {
      NewByInsertion(c, s, s', step, id);
    } else if Uses(step, id) {
      assert CallerStep(s, s', step);
    } else {
      UnusedStep(c, s, s', step, id);
    }
  }

  lemma NewByInsertion(c: Config, s: State, s': State, step: Step, id: Id)
    requires Inv(s) && Next(c, s, s', step) && id !in s.lives && id in s'.lives
    ensures step.Insert? && s.next == id && s'.lives[id].inst.lastUsed == s.clock
  {
    if !LoadStep(c, s, s', step) {
      NoneNew(c, s, s', step);
    }
  }

  lemma NoneNew(c: Config, s: State, s': State, step: Step)
    requires Inv(s) && Next(c, s, s', step) && !LoadStep(c, s, s', step)
    ensures s'.lives.Keys == s.lives.Keys
  {
    if RoomStep(c, s, s', step) {
      RoomNoneNew(c, s, s', step);
    } else if ProcessStep(s, s', step) {
      ProcessNoneNew(s, s', step);
    } else if SweepStep(c, s, s', step) {
      SweepNoneNew(c, s, s', step);
    }
  }

  lemma RoomNoneNew(c: Config, s: State, s': State, step: Step)
    requires s.Known() && RoomStep(c, s, s', step)
    ensures s'.lives.Keys == s.lives.Keys
  {
  }

  lemma ProcessNoneNew(s: State, s': State, step: Step)
    requires s.Known() && ProcessStep(s, s', step)
    ensures s'.lives.Keys == s.lives.Keys
  {
  }

  lemma SweepNoneNew(c: Config, s: State, s': State, step: Step)
    requires s.Known() && SweepStep(c, s, s', step)
    ensures s'.lives.Keys == s.lives.Keys
  {
  }

  /** The candidate given up was used between one reading of it and the next. */
  ghost predicate UsedMeanwhile(states: seq<State>, steps: seq<Step>, i: nat, u: nat, m: nat, q: Ref)
    requires |states| == |steps| + 1
  {
    && i <= u < m < |steps| && SameRound(states, i, m, q) && Uses(steps[u], states[i].loaded[q])
    && steps[m] == Compare && states[m].mutex.ForRoom? && states[m].mutex.scan.best == Some(q)
  }

  lemma MisledStep(c: Config, s: State, s': State, step: Step)
    requires Inv(s) && Next(c, s, s', step) && s'.mutex.ForRoom? && s'.mutex.scan.misled
    ensures s.mutex.ForRoom? && (s.mutex.scan.misled || StaleCompare(s, step))
  {
    if RoomStep(c, s, s', step) {
      RoomMisled(c, s, s', step);
    } else if s.mutex.ForRoom? {
      InvStep(c, s, s', step);
      OthersAge(c, s, s', step);
    } else {
      NoScanBegins(c, s, s', step);
    }
  }

  lemma RoomMisled(c: Config, s: State, s': State, step: Step)
    requires Inv(s) && RoomStep(c, s, s', step) && s'.mutex.ForRoom? && s'.mutex.scan.misled
    ensures s.mutex.ForRoom? && (s.mutex.scan.misled || StaleCompare(s, step))
  {
  }

  /** A comparison with a candidate used since it was first read. */
  ghost predicate StaleCompare(s: State, step: Step) {
    && s.Known() && step == Compare && s.mutex.ForRoom?
    && var k := s.mutex.scan;
       k.best.Some? && k.best.value in k.seen && k.best.value in s.loaded
       && s.Table()[k.best.value].lastUsed != k.seen[k.best.value]
  }

  lemma RunMisled(c: Config, states: seq<State>, steps: seq<Step>, j: nat, s: State, s': State, step: Step)
    requires Run(c, states, steps) && 0 < j < |states| && s'.mutex.ForRoom? && s'.mutex.scan.misled
    requires s == states[j - 1] && s' == states[j] && step == steps[j - 1]
    ensures s.mutex.ForRoom? && (s.mutex.scan.misled || StaleCompare(s, step))
  {
    RunStep(c, states, steps, j, s, s', step);
    MisledStep(c, s, s', step);
  }

  lemma StaleMeansUsed(c: Config, states: seq<State>, steps: seq<Step>, m: nat) returns (q: Ref, i: nat, u: nat)
    requires Run(c, states, steps) && m < |steps| && StaleCompare(states[m], steps[m])
    ensures UsedMeanwhile(states, steps, i, u, m, q)
  {
    q := states[m].mutex.scan.best.value;
    i := WasReadLast(c, states, steps, m, q);
    u := FirstUse(c, states, steps, i, m, states[i].loaded[q]);
  }

  lemma FirstUse(c: Config, states: seq<State>, steps: seq<Step>, i: nat, j: nat, id: Id) returns (u: nat)
    requires Run(c, states, steps) && i <= j < |states| && id in states[i].lives && id in states[j].lives
    requires states[i].lives[id].inst != states[j].lives[id].inst
    ensures i <= u < j && Uses(steps[u], id)
  {
    if x: nat :| i <= x < j && Uses(steps[x], id) {
      u := x;
    } else {
      UnusedStays(c, states, steps, i, j, id);
      assert false;
    }
  }

  ghost predicate HeldFrom(states: seq<State>, m: nat, j: nat)
    requires m <= j < |states|
  {
    forall x :: m <= x <= j ==> states[x].mutex.ForRoom?
  }

  /** The look is misled only by a candidate used while it was one. */
  lemma {:induction false} MisledMeansUsed(c: Config, states: seq<State>, steps: seq<Step>, j: nat)
    returns (q: Ref, i: nat, u: nat, m: nat)
    requires Run(c, states, steps) && j < |states| && states[j].mutex.ForRoom? && states[j].mutex.scan.misled
    ensures m < j && UsedMeanwhile(states, steps, i, u, m, q)
    ensures HeldFrom(states, m, j)
    decreases j
  {
    assert j > 0;
    RunMisled(c, states, steps, j, states[j - 1], states[j], steps[j - 1]);
    if states[j - 1].mutex.scan.misled {
      q, i, u, m := MisledMeansUsed(c, states, steps, j - 1);
    } else {
      m := j - 1;
      q, i, u := StaleMeansUsed(c, states, steps, m);
    }
  }

  /** An instance unlinked for memory is, unless a candidate was used while it
      was one, the least recently used by what was read of each found idle; and
      each not found idle was pinned or serving when it was read. */
  lemma VictimsWereOldest(c: Config, states: seq<State>, steps: seq<Step>, j: nat, id: Id) returns (m: nat)
    requires Run(c, states, steps) && j < |states| && Left(states[j], id) && states[j].lives[id].left.value.0 == Memory
    ensures var q := states[j].lives[id].ref;
            && m < j && Unlinks(states[m], steps[m], q, id, Memory, states[j].lives[id].left.value.1)
            && var k := states[m].mutex.scan;
               && q in k.seen && k.seen.Keys <= states[m].loaded.Keys
               && (forall p :: p in k.seen ==> exists i :: ReadThen(states, i, m, p))
               && (forall p :: p in states[m].loaded ==> exists i :: LookedThen(c, states, steps, i, m, p))
               && (k.misled || forall p :: p in k.seen ==> k.seen[q] <= k.seen[p])
  {
    m := WasUnlinked(c, states, steps, j, id);
    RunInv(c, states, steps, m);
    var k := states[m].mutex.scan;
    forall p | p in k.seen
      ensures exists i :: ReadThen(states, i, m, p)
    {
      var i := WasReadLast(c, states, steps, m, p);
    }
    forall p | p in states[m].loaded
      ensures exists i :: LookedThen(c, states, steps, i, m, p)
    {
      var i := WasLookedAt(c, states, steps, m, p);
    }
  }

  /** A round from taking the mutex to unlinking a victim, in which nobody used
      any instance. */
  ghost predicate QuietRound(states: seq<State>, steps: seq<Step>, h: nat, m: nat)
    requires |states| == |steps| + 1
  {
    && h < m < |steps| && steps[h].Hold? && !states[h].mutex.ForRoom? && steps[m] == Evict
    && (forall x :: h < x <= m ==> states[x].mutex.ForRoom?)
    && forall u, id :: h <= u < m ==> !Uses(steps[u], id)
  }

  lemma QuietNotMisled(c: Config, states: seq<State>, steps: seq<Step>, h: nat, m: nat)
    requires Run(c, states, steps) && QuietRound(states, steps, h, m)
    ensures !states[m].mutex.scan.misled
  {
    if states[m].mutex.scan.misled {
      var q, i, u, x := MisledMeansUsed(c, states, steps, m);
      assert false;
    }
  }

  lemma QuietFound(c: Config, states: seq<State>, steps: seq<Step>, h: nat, m: nat, q: Ref)
    requires Run(c, states, steps) && QuietRound(states, steps, h, m) && Inv(states[m]) && AllRead(states[m].mutex.scan)
    requires q in states[m].loaded
    ensures q in states[m].mutex.scan.seen <==> Evictable(c.keep, states[m].Table(), q)
  {
    var i := WasLookedAt(c, states, steps, m, q);
    assert i > h;
    RunInv(c, states, steps, i);
    UnusedStays(c, states, steps, i, m, states[m].loaded[q]);
  }

  lemma QuietRead(c: Config, states: seq<State>, steps: seq<Step>, h: nat, m: nat, q: Ref)
    requires Run(c, states, steps) && QuietRound(states, steps, h, m) && Inv(states[m])
    requires q in states[m].mutex.scan.seen
    ensures states[m].mutex.scan.seen[q] == states[m].Table()[q].lastUsed
  {
    var i := WasReadLast(c, states, steps, m, q);
    assert i > h;
    RunInv(c, states, steps, i);
    UnusedStays(c, states, steps, i, m, states[m].loaded[q]);
  }

  /** With nobody using an instance while the round goes on, its victim is the
      least recently used of the table as it is unlinked. */
  lemma QuietRoundsEvictTheLru(c: Config, states: seq<State>, steps: seq<Step>, h: nat, m: nat)
    requires Run(c, states, steps) && QuietRound(states, steps, h, m)
    ensures states[m].Known() && AllRead(states[m].mutex.scan) && states[m].mutex.scan.best.Some?
    ensures IsLru(c.keep, states[m].Table(), states[m].mutex.scan.best.value)
  {
    RunInv(c, states, steps, m);
    assert StepAt(c, states, steps, m);
    QuietNotMisled(c, states, steps, h, m);
    var k := states[m].mutex.scan;
    forall q | q in states[m].loaded
      ensures q in k.seen <==> Evictable(c.keep, states[m].Table(), q)
      ensures q in k.seen ==> k.seen[q] == states[m].Table()[q].lastUsed
    {
      QuietFound(c, states, steps, h, m, q);
      if q in k.seen {
        QuietRead(c, states, steps, h, m, q);
      }
    }
  }

  // ----- what a round decides on

  /** The round has read the whole table and decides on the load it is for. */
  ghost predicate Decides(s: State, step: Step, need: nat) {
    && s.Known() && s.mutex.ForRoom? && AllRead(s.mutex.scan)
    && s.mutex.scan.r in s.flights && s.flights[s.mutex.scan.r] == MakingRoom(need)
    && (step == Pass || step == Evict || step == Refuse)
  }

  /** A round decides by the footprints of the table as it then is: there is room,
      or an instance found idle goes, or, when there was none, the load is refused;
      and then each instance was pinned or serving as it was read. */
  lemma RoundsDecide(c: Config, states: seq<State>, steps: seq<Step>, m: nat, need: nat)
    requires Run(c, states, steps) && m < |steps| && Decides(states[m], steps[m], need)
    ensures steps[m] == Pass <==> Used(states[m].Table()) + need <= c.budget
    ensures steps[m] == Evict ==>
              exists q, i :: q in states[m].loaded && q !in states[m + 1].loaded && BusyOrPinned(c, states, steps, i, m, q, false)
    ensures steps[m] == Refuse ==> forall q :: q in states[m].loaded ==> exists i :: BusyOrPinned(c, states, steps, i, m, q, true)
  {
    RunInv(c, states, steps, m);
    assert StepAt(c, states, steps, m);
    var s := states[m];
    assert s.Table() - {} == s.Table();
    if steps[m] == Evict {
      var q := s.mutex.scan.best.value;
      var i := WasLookedAt(c, states, steps, m, q);
      assert BusyOrPinned(c, states, steps, i, m, q, false);
    }
    if steps[m] == Refuse {
      NoneWasIdle(c, states, steps, m);
    }
  }

  lemma NoneWasIdle(c: Config, states: seq<State>, steps: seq<Step>, m: nat)
    requires Run(c, states, steps) && m < |states| && Inv(states[m]) && states[m].mutex.ForRoom?
    requires AllRead(states[m].mutex.scan) && states[m].mutex.scan.best.None?
    ensures forall q :: q in states[m].loaded ==> exists i :: BusyOrPinned(c, states, steps, i, m, q, true)
  {
    forall q | q in states[m].loaded
      ensures exists i :: BusyOrPinned(c, states, steps, i, m, q, true)
    {
      var i := WasLookedAt(c, states, steps, m, q);
      assert BusyOrPinned(c, states, steps, i, m, q, true);
    }
  }

  /** Read at step i, under the same hold of the mutex, the instance of q was
      pinned or serving; or it was neither. */
  ghost predicate BusyOrPinned(c: Config, states: seq<State>, steps: seq<Step>, i: nat, m: nat, q: Ref, yes: bool)
    requires |states| == |steps| + 1
  {
    && i < m < |states| && steps[i] == Look(q) && SameRound(states, i, m, q) && states[i].Known()
    && (yes <==> q in c.keep || states[i].Table()[q].active > 0)
  }
}
