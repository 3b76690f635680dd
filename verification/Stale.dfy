/** What reading the layout again under the lock is for: a run of processes that
    do not, in which a collector that waited behind a pull removes the model
    just pulled. */
module Stale {
  import opened Wrappers
  import opened Graph
  import opened Collection
  import opened Repair
  import opened Locking

  const MODEL := Descriptor(Plain("application/octet-stream"), "model", 1)

  const MODEL_BLOB := Blob(1, true, None)

  const MODEL_TAG := Entry(MODEL, "tag", None, false)

  ghost predicate Ending(states: seq<State>, moves: seq<Move>, s: State) {
    Run(false, states, moves) && states[|states| - 1] == s
  }

  lemma Extend(states: seq<State>, moves: seq<Move>, s: State, s': State, p: Pid, step: Step)
    returns (states': seq<State>, moves': seq<Move>)
    requires Ending(states, moves, s) && Next(false, s, s', p, step)
    ensures Ending(states', moves', s')
  {
    states', moves' := states + [s'], moves + [Move(p, step)];
    forall i | 0 <= i < |moves'|
      ensures Next(false, states'[i], states'[i + 1], moves'[i].p, moves'[i].step)
    {
      if i < |moves| {
        assert states'[i + 1] == states[i + 1];
      }
    }
  }

  /** The collector, process 0, opens and reads an empty index; the puller,
      process 1, gets the lock. */
  lemma BothOpen() returns (states: seq<State>, moves: seq<Move>, s: State)
    ensures Ending(states, moves, s) && s.disk == Whole({}) && s.blobs == map[] && s.log == []
    ensures s.Proc(0) == Opened(Some({})) && s.Proc(1) == Holding(Exclusive, {}, None) && s.locked == map[1 := Exclusive]
  {
    s := State(Whole({}), map[], map[], map[], []);
    states, moves := [s], [];
    var s1 := s.With(0, Opened(Some({})));
    states, moves := Extend(states, moves, s, s1, 0, Open(true));
    var s2 := s1.With(1, Opened(Some({})));
    states, moves := Extend(states, moves, s1, s2, 1, Open(true));
    var s3 := s2.With(1, Granted(Exclusive, Some({}))).(locked := map[1 := Exclusive]);
    assert s2.locked[1 := Exclusive] == map[1 := Exclusive];
    states, moves := Extend(states, moves, s2, s3, 1, Grant(Exclusive));
    s := s3.With(1, Holding(Exclusive, {}, None));
    states, moves := Extend(states, moves, s3, s, 1, Reload(true));
  }

  lemma ModelComplete(l: Layout)
    requires "model" in l
    ensures Complete(l, MODEL)
  {
    NodesLeast(l, {MODEL}, {MODEL});
  }

  /** The puller stores and tags a model, and unlocks. */
  lemma Pulled() returns (states: seq<State>, moves: seq<Move>, s: State)
    ensures Ending(states, moves, s) && s.disk == Whole({MODEL_TAG}) && s.blobs == map["model" := MODEL_BLOB]
    ensures s.Proc(0) == Opened(Some({})) && s.locked == map[]
  {
    var s0;
    states, moves, s0 := BothOpen();
    var s1 := s0.(blobs := map["model" := MODEL_BLOB]);
    assert s0.blobs + map["model" := MODEL_BLOB] == s1.blobs;
    states, moves := Extend(states, moves, s0, s1, 1, Push(map["model" := MODEL_BLOB]));
    ModelComplete(s1.blobs);
    assert Apply({}, Add(MODEL_TAG)) == {MODEL_TAG};
    var s2 := s1.With(1, Saving({MODEL_TAG}, Add(MODEL_TAG), None)).(disk := Torn);
    states, moves := Extend(states, moves, s1, s2, 1, BeginSave(Add(MODEL_TAG)));
    var s3 := s2.With(1, Holding(Exclusive, {MODEL_TAG}, None)).(disk := Whole({MODEL_TAG}), log := s2.log + [Add(MODEL_TAG)]);
    states, moves := Extend(states, moves, s2, s3, 1, EndSave);
    s := s3.With(1, Opened(Some({MODEL_TAG}))).(locked := map[]);
    assert s3.locked - {1} == map[];
    states, moves := Extend(states, moves, s3, s, 1, Unlock);
  }

  lemma EmptyKeepsNothing(l: Layout)
    ensures KeptOf(l, {}) == {}
  {
    NodesLeast(l, {}, {});
    assert Repaired(Contents(l, {})).entries == {};
    assert Holders(l, {}) == {} && Descs({}) == {};
    assert UntaggedOn({}, Reach(l, {})) == {};
  }

  /** The collector gets the lock, goes on with what it read when it opened,
      and removes the model its tag on disk names. With the layout read again
      no run comes to this: there every tagged artifact stays complete. */
  lemma StaleViewLoses() returns (states: seq<State>, moves: seq<Move>, s: State)
    ensures Ending(states, moves, s) && s.disk == Whole({MODEL_TAG}) && IsArtifact(MODEL_TAG)
    ensures !Complete(s.blobs, MODEL) && !AllComplete(s.blobs, s.disk.entries)
  {
    var s0;
    states, moves, s0 := Pulled();
    var s1 := s0.With(0, Granted(Exclusive, Some({}))).(locked := s0.locked[0 := Exclusive]);
    states, moves := Extend(states, moves, s0, s1, 0, Grant(Exclusive));
    var s2 := s1.With(0, Holding(Exclusive, {}, None));
    states, moves := Extend(states, moves, s1, s2, 0, Reload(true));
    EmptyKeepsNothing(s2.blobs);
    var s3 := s2.With(0, Holding(Exclusive, {}, Some({})));
    states, moves := Extend(states, moves, s2, s3, 0, StartCollection);
    s := s3.(blobs := s3.blobs - {"model"});
    states, moves := Extend(states, moves, s3, s, 0, Sweep({"model"}));
    NodesClosed(s.blobs, {MODEL});
    assert MODEL in Nodes(s.blobs, {MODEL}) && MODEL_TAG in s.disk.entries;
  }
}
