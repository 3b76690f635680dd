/** What a shutdown of the router leaves: when the table stays empty after it,
    and the loads by which it does not. */
module Stopping {
  import opened Wrappers
  import opened Instances
  import opened Router
  import opened Budget

  /** States and steps that follow on s, in which no request starts a load. */
  ghost predicate Continues(c: Config, states: seq<State>, steps: seq<Step>, s: State) {
    && |states| == |steps| + 1 && states[0] == s
    && (forall i :: 0 <= i < |steps| ==> StepAt(c, states, steps, i))
    && forall i :: 0 <= i < |steps| ==> !steps[i].Request?
  }

  /** However things go on from s without new requests, the table is empty. */
  ghost predicate EmptyForGood(c: Config, s: State) {
    forall states: seq<State>, steps: seq<Step> :: Continues(c, states, steps, s) ==> states[|steps|].loaded == map[]
  }

  /** A load that may still put its instance into the table: one not landed,
      unless the model it is sized for exceeds the budget outright. */
  predicate MayLand(c: Config, f: Flight) {
    match f
    case Landed(_) => false
    case MakingRoom(need) => c.budget == 0 || need <= c.budget
    case _ => true
  }

  // ----- with no such load

  /** An empty table, and no load that may add to it. */
  ghost predicate Drained(c: Config, s: State) {
    s.loaded == map[] && !s.mutex.ForRoom? && forall r :: r in s.flights ==> !MayLand(c, s.flights[r])
  }

  lemma DrainedStep(c: Config, s: State, s': State, step: Step)
    requires s.Known() && Drained(c, s) && Next(c, s, s', step) && !step.Request?
    ensures Drained(c, s')
  {
    if ProcessStep(s, s', step) {
      assert s'.loaded == map[];
    }
  }

  lemma {:induction false} DrainedStays(c: Config, states: seq<State>, steps: seq<Step>, s: State, i: nat)
    requires Drained(c, s) && Continues(c, states, steps, s) && i <= |steps|
    ensures Drained(c, states[i])
    decreases i
  {
    if i > 0 {
      DrainedStays(c, states, steps, s, i - 1);
      assert StepAt(c, states, steps, i - 1);
      DrainedStep(c, states[i - 1], states[i], steps[i - 1]);
    }
  }

  // ----- with one

  lemma Prepend(c: Config, states: seq<State>, steps: seq<Step>, s: State, s': State, step: Step)
    returns (states': seq<State>, steps': seq<Step>)
    requires Continues(c, states, steps, s') && s.Known() && Next(c, s, s', step) && !step.Request?
    ensures Continues(c, states', steps', s) && states'[|steps'|] == states[|steps|]
  {
    states', steps' := [s] + states, [step] + steps;
    forall i | 0 <= i < |steps'|
      ensures StepAt(c, states', steps', i)
    {
      if i > 0 {
        assert StepAt(c, states, steps, i - 1);
        assert states'[i] == states[i - 1] && states'[i + 1] == states[i] && steps'[i] == steps[i - 1];
      }
    }
  }

  /** The instance of r is in the table, its process running. */
  ghost predicate Serving(s: State, r: Ref) {
    r in s.loaded && s.loaded[r] in s.lives && s.lives[s.loaded[r]].running && s.lives[s.loaded[r]].left.None?
  }

  function StepsLeft(f: Flight): nat {
    match f
    case Started => 4
    case Checked => 3
    case MakingRoom(_) => 2
    case Roomy(_) => 1
    case Landed(_) => 0
  }

  lemma RoomyLands(c: Config, s: State, r: Ref) returns (states: seq<State>, steps: seq<Step>)
    requires s.loaded == map[] && s.mutex.Free? && r in s.flights && s.flights[r].Roomy?
    ensures Continues(c, states, steps, s) && Serving(states[|steps|], r)
  {
    var s' := Inserted(s, r, s.flights[r].need);
    assert LoadStep(c, s, s', Insert(r));
    states, steps := [s, s'], [Insert(r)];
    assert StepAt(c, states, steps, 0);
  }

  /** A load that looked again, and finds nothing, is sized, whatever it needs;
      this one needs no more than any budget gives. */
  lemma LooksAndIsSized(c: Config, s: State, r: Ref) returns (s': State, step: Step)
    requires s.loaded == map[] && s.mutex.Free? && r in s.flights && (s.flights[r].Started? || s.flights[r].Checked?)
    ensures Next(c, s, s', step) && !step.Request?
    ensures s'.loaded == map[] && s'.mutex.Free? && r in s'.flights && MayLand(c, s'.flights[r])
    ensures StepsLeft(s'.flights[r]) < StepsLeft(s.flights[r])
  {
    if s.flights[r].Started? {
      s', step := InFlight(s, r, Checked), Recheck(r);
    } else {
      s', step := InFlight(s, r, MakingRoom(0)), Size(r, 0);
    }
    assert LoadStep(c, s, s', step);
  }

  lemma MakesRoom(c: Config, s: State, r: Ref, rest: seq<State>, moves: seq<Step>)
    returns (states: seq<State>, steps: seq<Step>)
    requires s.loaded == map[] && s.mutex.Free? && r in s.flights && s.flights[r].MakingRoom? && MayLand(c, s.flights[r])
    requires Continues(c, rest, moves, InFlight(s, r, Roomy(s.flights[r].need)))
    ensures Continues(c, states, steps, s) && states[|steps|] == rest[|moves|]
  {
    var need := s.flights[r].need;
    var s' := InFlight(s, r, Roomy(need));
    if c.budget == 0 {
      assert LoadStep(c, s, s', Waive(r));
      states, steps := Prepend(c, rest, moves, s, s', Waive(r));
    } else {
      assert s.flights[r := MakingRoom(need)] == s.flights;
      assert InFlight(s, r, MakingRoom(need)) == s;
      PassStep(c, s, r, need);
      states, steps := Prepend(c, rest, moves, Held(s, r, need), s', Pass);
      assert RoomStep(c, s, Held(s, r, need), Hold(r));
      states, steps := Prepend(c, states, steps, s, Held(s, r, need), Hold(r));
    }
  }

  /** From an empty table any such load goes on to put a running instance into
      it, with no new request. */
  lemma {:induction false} Lands(c: Config, s: State, r: Ref) returns (states: seq<State>, steps: seq<Step>)
    requires s.loaded == map[] && s.mutex.Free? && r in s.flights && MayLand(c, s.flights[r])
    ensures Continues(c, states, steps, s) && Serving(states[|steps|], r)
    decreases StepsLeft(s.flights[r])
  {
    if s.flights[r].Roomy? {
      states, steps := RoomyLands(c, s, r);
    } else if s.flights[r].MakingRoom? {
      var rest, moves := RoomyLands(c, InFlight(s, r, Roomy(s.flights[r].need)), r);
      states, steps := MakesRoom(c, s, r, rest, moves);
    } else {
      var s', step := LooksAndIsSized(c, s, r);
      var rest, moves := Lands(c, s', r);
      states, steps := Prepend(c, rest, moves, s, s', step);
    }
  }

  // ----- exactly when a shutdown is final

  lemma AfterShutdown(c: Config, s: State, s': State)
    requires s.Known() && Next(c, s, s', Shutdown)
    ensures s'.loaded == map[] && s'.mutex.Free? && s'.flights == s.flights
  {
  }

  /** In any run, after a shutdown and with no new request, the table stays
      empty however things go on, if and only if no load under way at the
      shutdown may still land. */
  lemma ShutdownIsFinalExactlyWhen(c: Config, states: seq<State>, steps: seq<Step>, m: nat)
    requires Run(c, states, steps) && m < |steps| && steps[m].Shutdown?
    ensures EmptyForGood(c, states[m + 1])
            <==> forall r :: r in states[m].flights ==> !MayLand(c, states[m].flights[r])
  {
    assert StepAt(c, states, steps, m);
    var s := states[m + 1];
    AfterShutdown(c, states[m], s);
    if Drained(c, s) {
      forall more: seq<State>, moves: seq<Step> | Continues(c, more, moves, s)
        ensures more[|moves|].loaded == map[]
      {
        DrainedStays(c, more, moves, s, |moves|);
      }
    } else {
      var r :| r in s.flights && MayLand(c, s.flights[r]);
      var more, moves := Lands(c, s, r);
      assert more[|moves|].loaded != map[];
    }
  }

  // ----- a run

  lemma StartedRun(c: Config) returns (states: seq<State>, steps: seq<Step>, s: State)
    ensures Run(c, states, steps) && states[|steps|] == s && s.loaded == map[] && s.lives == map[] && s.mutex.Free?
    ensures s.flights == map[Name(0) := Started] && steps == [Request(Name(0))]
  {
    var s0;
    states, steps, s0 := StartRun(c, 1);
    s := InFlight(s0, Name(0), Started);
    assert s0.flights == map[];
    RequestStep(c, s0, Name(0));
    ExtendRun(c, states, steps, s0, s, Request(Name(0)));
    states, steps := states + [s], steps + [Request(Name(0))];
  }

  lemma JoinRun(c: Config, states: seq<State>, steps: seq<Step>, more: seq<State>, moves: seq<Step>)
    requires Run(c, states, steps) && Continues(c, more, moves, states[|steps|])
    ensures Run(c, states + more[1..], steps + moves)
  {
    var (ss, ms) := (states + more[1..], steps + moves);
    forall i | 0 <= i < |ms|
      ensures StepAt(c, ss, ms, i)
    {
      if i < |steps| {
        assert StepAt(c, states, steps, i) && ss[i] == states[i] && ss[i + 1] == states[i + 1];
      } else {
        var j := i - |steps|;
        assert StepAt(c, more, moves, j) && ss[i] == more[j] && ss[i + 1] == more[j + 1] && ms[i] == moves[j];
      }
    }
  }

  /** A run: one request, a shutdown, and with no other request a running
      instance in the table. Its load had only started when the shutdown came. */
  lemma LoadsOutliveShutdown(c: Config) returns (states: seq<State>, steps: seq<Step>)
    ensures Run(c, states, steps) && |steps| > 2 && steps[0].Request? && steps[1].Shutdown?
    ensures forall i :: 2 <= i < |steps| ==> !steps[i].Request?
    ensures Serving(states[|steps|], Name(0))
  {
    var s;
    states, steps, s := StartedRun(c);
    assert Unlink(s, s.loaded.Keys, Stopped) == s;
    ExtendRun(c, states, steps, s, s, Shutdown);
    var more, moves := Lands(c, s, Name(0));
    JoinRun(c, states + [s], steps + [Shutdown], more, moves);
    states, steps := states + [s] + more[1..], steps + [Shutdown] + moves;
  }
}
