/** What may be unloaded, given that instances are used while the table is
    looked over: a victim was idle when it was read, and is still idle as it is
    unlinked exactly when as many requests ended in between as began. */
module Eviction {
  import opened Wrappers
  import opened Instances
  import opened Router

  // ----- requests are conserved

  function Begins(steps: seq<Step>, i: nat, j: nat, id: Id): nat
    requires i <= j <= |steps|
    decreases j
  {
    if i == j then 0 else Begins(steps, i, j - 1, id) + if steps[j - 1] == Begin(id) then 1 else 0
  }

  function Ends(steps: seq<Step>, i: nat, j: nat, id: Id): nat
    requires i <= j <= |steps|
    decreases j
  {
    if i == j then 0 else Ends(steps, i, j - 1, id) + if steps[j - 1] == End(id) then 1 else 0
  }

  ghost function ActiveOf(s: State, id: Id): nat {
    if id in s.lives then s.lives[id].inst.active else 0
  }

  ghost predicate Moves(s: State, s': State, step: Step, id: Id) {
    ActiveOf(s', id) + (if step == End(id) then 1 else 0) == ActiveOf(s, id) + if step == Begin(id) then 1 else 0
  }

  lemma LoadMoves(c: Config, s: State, s': State, step: Step, id: Id)
    requires Inv(s) && LoadStep(c, s, s', step)
    ensures Moves(s, s', step, id)
  {
  }

  lemma CallerMoves(s: State, s': State, step: Step, id: Id)
    requires CallerStep(s, s', step)
    ensures Moves(s, s', step, id)
  {
  }

  lemma RoomMoves(c: Config, s: State, s': State, step: Step, id: Id)
    requires Inv(s) && RoomStep(c, s, s', step)
    ensures Moves(s, s', step, id)
  {
  }

  lemma ProcessMoves(s: State, s': State, step: Step, id: Id)
    requires Inv(s) && ProcessStep(s, s', step)
    ensures Moves(s, s', step, id)
  {
  }

  lemma SweepMoves(c: Config, s: State, s': State, step: Step, id: Id)
    requires Inv(s) && SweepStep(c, s, s', step)
    ensures Moves(s, s', step, id)
  {
  }

  lemma ActiveStep(c: Config, s: State, s': State, step: Step, id: Id)
    requires Inv(s) && Next(c, s, s', step)
    ensures Moves(s, s', step, id)
  {
    if LoadStep(c, s, s', step) {
      LoadMoves(c, s, s', step, id);
    } else if CallerStep(s, s', step) {
      CallerMoves(s, s', step, id);
    } else if RoomStep(c, s, s', step) {
      RoomMoves(c, s, s', step, id);
    } else if ProcessStep(s, s', step) {
      ProcessMoves(s, s', step, id);
    } else if SweepStep(c, s, s', step) {
      SweepMoves(c, s, s', step, id);
    }
  }

  lemma RunMoves(c: Config, states: seq<State>, steps: seq<Step>, j: nat, s: State, s': State, step: Step, id: Id)
    requires Run(c, states, steps) && 0 < j < |states|
    requires s == states[j - 1] && s' == states[j] && step == steps[j - 1]
    ensures Moves(s, s', step, id)
  {
    RunStep(c, states, steps, j, s, s', step);
    ActiveStep(c, s, s', step, id);
  }

  ghost predicate MovesAt(states: seq<State>, steps: seq<Step>, j: nat, id: Id)
    requires |states| == |steps| + 1 && 0 < j < |states|
  {
    Moves(states[j - 1], states[j], steps[j - 1], id)
  }

  lemma {:induction false} MovesAddUp(states: seq<State>, steps: seq<Step>, i: nat, j: nat, id: Id)
    requires |states| == |steps| + 1 && i <= j < |states|
    requires forall x :: 0 < x < |states| ==> MovesAt(states, steps, x, id)
    ensures ActiveOf(states[j], id) + Ends(steps, i, j, id) == ActiveOf(states[i], id) + Begins(steps, i, j, id)
    decreases j
  {
    if i < j {
      MovesAddUp(states, steps, i, j - 1, id);
      assert MovesAt(states, steps, j, id);
    }
  }

  /** At every point of a run an instance's count is the requests begun on it
      and not ended: nothing else moves it, and none goes missing. */
  lemma ActiveIsNet(c: Config, states: seq<State>, steps: seq<Step>, i: nat, j: nat, id: Id)
    requires Run(c, states, steps) && i <= j < |states|
    ensures ActiveOf(states[j], id) + Ends(steps, i, j, id) == ActiveOf(states[i], id) + Begins(steps, i, j, id)
  {
    forall x | 0 < x < |states|
      ensures MovesAt(states, steps, x, id)
    {
      RunMoves(c, states, steps, x, states[x - 1], states[x], steps[x - 1], id);
    }
    MovesAddUp(states, steps, i, j, id);
  }

  // ----- what was read

  ghost predicate WasFoundIdle(k: Scan, q: Ref) {
    q in k.seen || (!k.glance.Nothing? && k.glance.q == q)
  }

  /** The look over the table that is going on has been at q. */
  ghost predicate BeenAt(s: State, q: Ref) {
    s.mutex.ForRoom? && q in s.loaded && q !in s.mutex.scan.todo
  }

  /** The same instance of q, under one stretch of holding the mutex for room. */
  ghost predicate SameRound(states: seq<State>, i: nat, j: nat, q: Ref)
    requires i <= j < |states|
  {
    && (forall x :: i <= x <= j ==> states[x].mutex.ForRoom?)
    && q in states[i].loaded && q in states[j].loaded && states[i].loaded[q] == states[j].loaded[q]
  }

  lemma LookStep(c: Config, s: State, s': State, step: Step, q: Ref)
    requires Inv(s) && Next(c, s, s', step) && BeenAt(s', q)
    ensures s.mutex.ForRoom? && q in s.loaded && s.loaded[q] == s'.loaded[q]
    ensures BeenAt(s, q) ==> (WasFoundIdle(s'.mutex.scan, q) <==> WasFoundIdle(s.mutex.scan, q))
    ensures !BeenAt(s, q) ==> step == Look(q) && (WasFoundIdle(s'.mutex.scan, q) <==> Evictable(c.keep, s.Table(), q))
  {
    if RoomStep(c, s, s', step) {
      RoomLookStep(c, s, s', step, q);
    } else if !s.mutex.ForRoom? {
      assert false;
    } else {
      InvStep(c, s, s', step);
      OthersAge(c, s, s', step);
    }
  }

  lemma RoomLookStep(c: Config, s: State, s': State, step: Step, q: Ref)
    requires Inv(s) && RoomStep(c, s, s', step) && BeenAt(s', q)
    ensures s.mutex.ForRoom? && s.loaded == s'.loaded
    ensures BeenAt(s, q) ==> (WasFoundIdle(s'.mutex.scan, q) <==> WasFoundIdle(s.mutex.scan, q))
    ensures !BeenAt(s, q) ==> step == Look(q) && (WasFoundIdle(s'.mutex.scan, q) <==> Evictable(c.keep, s.Table(), q))
  {
  }

  /** What one step does to what the look knows of q. */
  ghost predicate LookGoesOn(c: Config, s: State, s': State, step: Step, q: Ref)
    requires s.Known() && BeenAt(s', q)
  {
    && s.mutex.ForRoom? && q in s.loaded && s.loaded[q] == s'.loaded[q]
    && if BeenAt(s, q) then WasFoundIdle(s'.mutex.scan, q) <==> WasFoundIdle(s.mutex.scan, q)
       else step == Look(q) && (WasFoundIdle(s'.mutex.scan, q) <==> Evictable(c.keep, s.Table(), q))
  }

  lemma RunLooks(c: Config, states: seq<State>, steps: seq<Step>, j: nat, s: State, s': State, step: Step, q: Ref)
    requires Run(c, states, steps) && 0 < j < |states| && BeenAt(s', q)
    requires s == states[j - 1] && s' == states[j] && step == steps[j - 1]
    ensures s.Known() && LookGoesOn(c, s, s', step, q)
  {
    RunStep(c, states, steps, j, s, s', step);
    LookStep(c, s, s', step, q);
  }

  /** The instance of q was read at step i, and counts as found idle at j
      exactly when it was so then. */
  ghost predicate LookedThen(c: Config, states: seq<State>, steps: seq<Step>, i: nat, j: nat, q: Ref)
    requires |states| == |steps| + 1
  {
    && i < j < |states| && steps[i] == Look(q) && SameRound(states, i, j, q) && states[i].Known()
    && (WasFoundIdle(states[j].mutex.scan, q) <==> Evictable(c.keep, states[i].Table(), q))
  }

  /** Each instance the look has been at was read once, under this hold of the
      mutex. */
  lemma {:induction false} WasLookedAt(c: Config, states: seq<State>, steps: seq<Step>, j: nat, q: Ref) returns (i: nat)
    requires Run(c, states, steps) && j < |states| && BeenAt(states[j], q)
    ensures LookedThen(c, states, steps, i, j, q)
    decreases j
  {
    assert j > 0;
    RunLooks(c, states, steps, j, states[j - 1], states[j], steps[j - 1], q);
    if BeenAt(states[j - 1], q) {
      i := WasLookedAt(c, states, steps, j - 1, q);
      RoundGrows(states, i, j, q);
    } else {
      i := j - 1;
    }
  }

  lemma RoundGrows(states: seq<State>, i: nat, j: nat, q: Ref)
    requires i < j < |states| && SameRound(states, i, j - 1, q)
    requires states[j].mutex.ForRoom? && q in states[j].loaded && states[j].loaded[q] == states[j - 1].loaded[q]
    ensures SameRound(states, i, j, q)
  {
  }

  // ----- the sweeper's look

  /** The sweeper has found q idle and is about to decide on it. */
  ghost predicate Suspected(s: State, q: Ref) {
    s.mutex.Sweeping? && s.mutex.idle == Some(q) && q in s.loaded
  }

  lemma SweepLooks(c: Config, s: State, s': State, step: Step, q: Ref)
    requires Inv(s) && Next(c, s, s', step) && Suspected(s', q)
    ensures s.mutex.Sweeping? && q in s.loaded && s.loaded[q] == s'.loaded[q]
    ensures Suspected(s, q) || (step == SweepLook(q) && Evictable(c.keep, s.Table(), q))
  {
    if !SweepStep(c, s, s', step) {
      NotSwept(c, s, s', step);
    }
  }

  lemma NotSwept(c: Config, s: State, s': State, step: Step)
    requires Inv(s) && Next(c, s, s', step) && !SweepStep(c, s, s', step) && s'.mutex.Sweeping?
    ensures s.mutex == s'.mutex && s.loaded == s'.loaded
  {
    if LoadStep(c, s, s', step) {
    } else if RoomStep(c, s, s', step) {
    } else if CallerStep(s, s', step) {
    } else if ProcessStep(s, s', step) {
    }
  }

  lemma RunSweeps(c: Config, states: seq<State>, steps: seq<Step>, j: nat, s: State, s': State, step: Step, q: Ref)
    requires Run(c, states, steps) && 0 < j < |states| && Suspected(s', q)
    requires s == states[j - 1] && s' == states[j] && step == steps[j - 1]
    ensures s.Known() && q in s.loaded && s.loaded[q] == s'.loaded[q]
    ensures Suspected(s, q) || (step == SweepLook(q) && Evictable(c.keep, s.Table(), q))
  {
    RunStep(c, states, steps, j, s, s', step);
    SweepLooks(c, s, s', step, q);
  }

  lemma {:induction false} WasSuspected(c: Config, states: seq<State>, steps: seq<Step>, j: nat, q: Ref) returns (i: nat)
    requires Run(c, states, steps) && j < |states| && Suspected(states[j], q)
    ensures i < j && steps[i] == SweepLook(q) && IdleThen(c, states[i], q, states[j].loaded[q])
    decreases j
  {
    assert j > 0;
    RunSweeps(c, states, steps, j, states[j - 1], states[j], steps[j - 1], q);
    i := j - 1;
    if Suspected(states[j - 1], q) {
      i := WasSuspected(c, states, steps, j - 1, q);
    }
  }

  // ----- victims

  /** The instance id of q is in the table, unpinned and serving nothing. */
  ghost predicate IdleThen(c: Config, s: State, q: Ref, id: Id) {
    s.Known() && Evictable(c.keep, s.Table(), q) && s.loaded[q] == id
  }

  /** The step takes instance id of q out of the table, for memory or for
      having been idle, and `was` is how it then stands. */
  ghost predicate Unlinks(s: State, step: Step, q: Ref, id: Id, cause: Cause, was: Inst) {
    && q in s.loaded && s.loaded[q] == id && id in s.lives && s.lives[id].inst == was
    && if cause == Memory then step == Evict && s.mutex.ForRoom? && AllRead(s.mutex.scan) && s.mutex.scan.best == Some(q)
       else step == SweepDecide && Suspected(s, q) && was.lastUsed < s.mutex.cutoff
  }

  lemma VictimStep(c: Config, s: State, s': State, step: Step, id: Id)
    requires Inv(s) && Next(c, s, s', step) && id in s'.lives && s'.lives[id].left.Some?
    requires s'.lives[id].left.value.0 == Memory || s'.lives[id].left.value.0 == Idle
    ensures if id in s.lives && s.lives[id].left.Some? then s.lives[id].left == s'.lives[id].left
            else Unlinks(s, step, s'.lives[id].ref, id, s'.lives[id].left.value.0, s'.lives[id].left.value.1)
  {
    CoreStep(c, s, s', step);
    if !(id in s.lives && s.lives[id].left.Some?) {
      if RoomStep(c, s, s', step) {
        RoomVictim(c, s, s', step, id);
      } else if SweepStep(c, s, s', step) {
        SweepVictim(c, s, s', step, id);
      } else {
        NoVictim(c, s, s', step, id);
      }
    }
  }

  lemma RoomVictim(c: Config, s: State, s': State, step: Step, id: Id)
    requires Inv(s) && RoomStep(c, s, s', step) && id in s'.lives && s'.lives[id].left.Some?
    requires id in s.lives && s.lives[id].left.None?
    ensures s'.lives[id].left.value.0 == Memory && Unlinks(s, step, s'.lives[id].ref, id, Memory, s'.lives[id].left.value.1)
  {
  }

  lemma SweepVictim(c: Config, s: State, s': State, step: Step, id: Id)
    requires Inv(s) && SweepStep(c, s, s', step) && id in s'.lives && s'.lives[id].left.Some?
    requires id in s.lives && s.lives[id].left.None?
    ensures s'.lives[id].left.value.0 == Idle && Unlinks(s, step, s'.lives[id].ref, id, Idle, s'.lives[id].left.value.1)
  {
  }

  lemma NoVictim(c: Config, s: State, s': State, step: Step, id: Id)
    requires Inv(s) && Next(c, s, s', step) && !RoomStep(c, s, s', step) && !SweepStep(c, s, s', step)
    requires id in s'.lives && (id in s.lives ==> s.lives[id].left.None?)
    ensures s'.lives[id].left.Some? ==> s'.lives[id].left.value.0.Exit? || s'.lives[id].left.value.0.Stopped?
  {
  }

  lemma RunVictim(c: Config, states: seq<State>, steps: seq<Step>, j: nat, s: State, s': State, step: Step, id: Id)
    requires Run(c, states, steps) && 0 < j < |states| && Left(s', id)
    requires s == states[j - 1] && s' == states[j] && step == steps[j - 1]
    ensures if Left(s, id) then s.lives[id].left == s'.lives[id].left && s.lives[id].ref == s'.lives[id].ref
            else Unlinks(s, step, s'.lives[id].ref, id, s'.lives[id].left.value.0, s'.lives[id].left.value.1)
  {
    RunStep(c, states, steps, j, s, s', step);
    VictimStep(c, s, s', step, id);
    CoreStep(c, s, s', step);
  }

  /** The instance was unloaded, for memory or for having been idle. */
  ghost predicate Left(s: State, id: Id) {
    id in s.lives && s.lives[id].left.Some? && (s.lives[id].left.value.0 == Memory || s.lives[id].left.value.0 == Idle)
  }

  lemma {:induction false} WasUnlinked(c: Config, states: seq<State>, steps: seq<Step>, j: nat, id: Id) returns (m: nat)
    requires Run(c, states, steps) && j < |states| && Left(states[j], id)
    ensures var x := states[j].lives[id];
            m < j && Unlinks(states[m], steps[m], x.ref, id, x.left.value.0, x.left.value.1)
    decreases j
  {
    assert j > 0;
    RunVictim(c, states, steps, j, states[j - 1], states[j], steps[j - 1], id);
    m := j - 1;
    if Left(states[j - 1], id) {
      m := WasUnlinked(c, states, steps, j - 1, id);
    }
  }

  /** Whatever was unloaded had been read earlier under the same hold of the
      mutex, in the table, unpinned and serving nothing. */
  lemma WasReadIdle(c: Config, states: seq<State>, steps: seq<Step>, m: nat, q: Ref, id: Id, cause: Cause, was: Inst)
    returns (i: nat)
    requires Run(c, states, steps) && m < |steps| && Unlinks(states[m], steps[m], q, id, cause, was)
    ensures i < m && IdleThen(c, states[i], q, id) && (steps[i] == Look(q) || steps[i] == SweepLook(q))
  {
    RunInv(c, states, steps, m);
    if cause == Memory {
      i := WasLookedAt(c, states, steps, m, q);
    } else {
      i := WasSuspected(c, states, steps, m, q);
    }
  }

  /** Every instance unloaded for memory or idleness was, when it was read,
      unpinned and serving nothing. When it was then unlinked it served exactly
      the requests begun on it since and not ended: it was idle still if and
      only if as many had ended as had begun. */
  lemma VictimsWereIdle(c: Config, states: seq<State>, steps: seq<Step>, j: nat, id: Id) returns (i: nat, m: nat)
    requires Run(c, states, steps) && j < |states| && Left(states[j], id)
    ensures var (q, cause, was) := (states[j].lives[id].ref, states[j].lives[id].left.value.0, states[j].lives[id].left.value.1);
            && i < m < j && Unlinks(states[m], steps[m], q, id, cause, was)
            && IdleThen(c, states[i], q, id) && (steps[i] == Look(q) || steps[i] == SweepLook(q))
            && was.active == Begins(steps, i, m, id) - Ends(steps, i, m, id)
  {
    var x := states[j].lives[id];
    m := WasUnlinked(c, states, steps, j, id);
    i := WasReadIdle(c, states, steps, m, x.ref, id, x.left.value.0, x.left.value.1);
    ActiveIsNet(c, states, steps, i, m, id);
  }
}
