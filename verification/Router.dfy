/** The router as requests, loads, sweeps, crashes and shutdown interleave. The
    router's mutex guards the table; each instance's own mutex guards its count
    of requests and its last use, and is taken for one read or write at a time.
    So an instance may be used while the table is being looked over. */
module Router {
  import opened Wrappers
  import opened Instances

  type Id = nat

  /** Where the one load of a reference has got to. Past `Checked` the table
      held no instance of it when the load looked. */
  datatype Flight = Started | Checked | MakingRoom(need: nat) | Roomy(need: nat) | Landed(id: Id)

  /** Why an instance left the table. */
  datatype Cause = Memory | Idle | Exit | Stopped

  /** An instance's life: its reference and footprint, how many callers came
      back with it and have not begun, whether its process still runs, and,
      once it has left the table, why and as what. */
  datatype Life = Life(
    ref: Ref, inst: Inst, inHand: nat, running: bool, reaped: bool, left: Option<(Cause, Inst)>)

  /** What a look over the table holds about the instance it is at: found idle,
      and then its last use read. */
  datatype Glance = Nothing | FoundIdle(q: Ref) | LastRead(q: Ref, at: nat)

  /** The look over the table for room: the sum so far, the instance it would
      unload, and the last use of each found idle, as it was read or, for the
      first of them, as it was found. `misled` records that a candidate was
      given up on a later last use than that. */
  datatype Scan = Scan(
    r: Ref, todo: set<Ref>, used: nat, glance: Glance, best: Option<Ref>, seen: map<Ref, nat>, misled: bool)

  /** Who holds the router's mutex across more than one step. */
  datatype Mutex = Free | ForRoom(scan: Scan) | Sweeping(cutoff: nat, todo: set<Ref>, idle: Option<Ref>)

  datatype State = State(
    loaded: map<Ref, Id>, lives: map<Id, Life>, flights: map<Ref, Flight>, mutex: Mutex, next: Id, clock: nat)
  {
    /** The table as it is at this moment. */
    ghost function Table(): Loaded
      requires Known()
    {
      map r | r in loaded :: lives[loaded[r]].inst
    }

    ghost predicate Known() {
      forall r :: r in loaded ==> loaded[r] in lives
    }

    /** The loads that have made room and not yet taken it. */
    ghost function Pending(): map<Ref, Inst> {
      map r | r in flights && flights[r].Roomy? :: Inst(flights[r].need, 0, 0)
    }

    function With(id: Id, life: Life): State {
      this.(lives := lives[id := life])
    }

    function Scanning(scan: Scan): State {
      this.(mutex := ForRoom(scan))
    }
  }

  /** A budget of zero is no guard at all. */
  datatype Config = Config(budget: nat, keep: set<Ref>)

  datatype Step =
    // a load, up to its instance
    | Request(r: Ref) | Recheck(r: Ref) | Size(r: Ref, need: nat) | Waive(r: Ref) | Insert(r: Ref) | Finish(r: Ref)
    // one round of making room
    | Hold(r: Ref) | Look(q: Ref) | ReadLast | Compare | Pass | Evict | Refuse
    // a caller and its instance
    | Take(id: Id) | Begin(id: Id) | End(id: Id)
    // a process, and its reaper
    | Die(id: Id) | Reap(id: Id)
    // the sweeper
    | StartSweep(cutoff: nat) | SweepLook(q: Ref) | SweepDecide | EndSweep
    | Shutdown | Tick

  /** Takes instances out of the table, each for the cause given. */
  ghost function Unlink(s: State, gone: set<Ref>, cause: Cause): State
    requires s.Known()
  {
    s.(loaded := s.loaded - gone,
       lives := map i | i in s.lives ::
         if exists r :: r in gone && r in s.loaded && s.loaded[r] == i
         then s.lives[i].(left := Some((cause, s.lives[i].inst))) else s.lives[i])
  }

  // ----- the steps

  /** A load: single-flight, and looking again before it asks the backend. */
  ghost predicate LoadStep(c: Config, s: State, s': State, step: Step) {
    match step
    // a caller finds no load of r under way and starts one
    case Request(r) => r !in s.flights && s' == s.(flights := s.flights[r := Started])
    // the load looks again: an instance may have arrived since
    case Recheck(r) =>
      s.mutex.Free? && r in s.flights && s.flights[r].Started?
      && s' == s.(flights := if r in s.loaded then s.flights - {r} else s.flights[r := Checked])
    // the backend answers what the model needs
    case Size(r, need) =>
      r in s.flights && s.flights[r].Checked? && s' == s.(flights := s.flights[r := MakingRoom(need)])
    // with no budget nothing is looked at
    case Waive(r) =>
      c.budget == 0 && r in s.flights && s.flights[r].MakingRoom?
      && s' == s.(flights := s.flights[r := Roomy(s.flights[r].need)])
    // the process is up: its instance goes into the table
    case Insert(r) =>
      s.mutex.Free? && r in s.flights && s.flights[r].Roomy?
      && s' == s.(loaded := s.loaded[r := s.next],
                  lives := s.lives[s.next := Life(r, Inst(s.flights[r].need, 0, s.clock), 0, true, false, None)],
                  flights := s.flights[r := Landed(s.next)], next := s.next + 1)
    // the load ends, landed or failed, at whatever point it had reached
    case Finish(r) =>
      r in s.flights && !s.flights[r].Started? && !(s.mutex.ForRoom? && s.mutex.scan.r == r)
      && s' == s.(flights := s.flights - {r})
    case _ => false
  }

  /** One round of `makeRoom`, under the router's mutex but not under those of
      the instances it reads. */
  ghost predicate RoomStep(c: Config, s: State, s': State, step: Step)
    requires s.Known()
  {
    match step
    case Hold(r) =>
      s.mutex.Free? && r in s.flights && s.flights[r].MakingRoom? && 0 < c.budget && s.flights[r].need <= c.budget
      && s' == s.Scanning(Scan(r, s.loaded.Keys, 0, Nothing, None, map[], false))
    case Look(q) => s.mutex.ForRoom? && Looked(c, s, s', s.mutex.scan, q)
    case ReadLast =>
      s.mutex.ForRoom?
      && var k := s.mutex.scan;
         k.glance.FoundIdle? && k.glance.q in s.loaded
         && s' == s.Scanning(k.(glance := LastRead(k.glance.q, s.Table()[k.glance.q].lastUsed)))
    case Compare => s.mutex.ForRoom? && Compared(s, s', s.mutex.scan)
    // there is room
    case Pass =>
      s.mutex.ForRoom? && AllRead(s.mutex.scan)
      && var k := s.mutex.scan;
         k.r in s.flights && s.flights[k.r].MakingRoom? && k.used + s.flights[k.r].need <= c.budget
         && s' == s.(flights := s.flights[k.r := Roomy(s.flights[k.r].need)], mutex := Free)
    // there is not, and one may go
    case Evict =>
      s.mutex.ForRoom? && AllRead(s.mutex.scan)
      && var k := s.mutex.scan;
         k.r in s.flights && s.flights[k.r].MakingRoom? && k.used + s.flights[k.r].need > c.budget
         && k.best.Some? && s' == Unlink(s, {k.best.value}, Memory).(mutex := Free)
    // there is not, and nothing may go
    case Refuse =>
      s.mutex.ForRoom? && AllRead(s.mutex.scan)
      && var k := s.mutex.scan;
         k.r in s.flights && s.flights[k.r].MakingRoom? && k.used + s.flights[k.r].need > c.budget
         && k.best.None? && s' == s.(flights := s.flights - {k.r}, mutex := Free)
    case _ => false
  }

  predicate AllRead(k: Scan) {
    k.todo == {} && k.glance.Nothing?
  }

  /** The count of one instance is read. The first found idle is the candidate
      with nothing more read of it. */
  ghost predicate Looked(c: Config, s: State, s': State, k: Scan, q: Ref)
    requires s.Known()
  {
    q in k.todo && q in s.loaded && k.glance.Nothing? && s' == s.Scanning(AfterLook(c, k, q, s.Table()[q]))
  }

  function AfterLook(c: Config, k: Scan, q: Ref, inst: Inst): Scan {
    var next := k.(todo := k.todo - {q}, used := k.used + inst.memory);
    if q in c.keep || inst.active > 0 then next
    else if k.best.None? then next.(best := Some(q), seen := k.seen[q := inst.lastUsed])
    else next.(glance := FoundIdle(q))
  }

  /** The candidate's last use is read, again, and the earlier one is kept. */
  ghost predicate Compared(s: State, s': State, k: Scan)
    requires s.Known()
  {
    && k.glance.LastRead? && k.best.Some? && k.best.value in s.loaded && k.best.value in k.seen
    && s' == s.Scanning(AfterCompare(k, s.Table()[k.best.value].lastUsed))
  }

  function AfterCompare(k: Scan, bestLast: nat): Scan
    requires k.glance.LastRead? && k.best.Some? && k.best.value in k.seen
  {
    var next := k.(glance := Nothing, seen := k.seen[k.glance.q := k.glance.at]);
    if k.glance.at < bestLast
    then next.(best := Some(k.glance.q), misled := k.misled || bestLast != k.seen[k.best.value])
    else next
  }

  /** A caller comes back from `ensure` with an instance, touching it; begins on
      it; and is done with it. None of these takes the router's mutex, except
      when the instance was in the table at the first look. */
  ghost predicate CallerStep(s: State, s': State, step: Step) {
    match step
    case Take(id) =>
      id in s.lives
      && var x := s.lives[id];
         s' == s.With(id, x.(inst := x.inst.Touched(s.clock), inHand := x.inHand + 1))
    case Begin(id) =>
      id in s.lives && s.lives[id].inHand > 0
      && var x := s.lives[id];
         s' == s.With(id, x.(inst := x.inst.Began(s.clock), inHand := x.inHand - 1))
    case End(id) =>
      id in s.lives && s.lives[id].inst.active > 0
      && s' == s.With(id, s.lives[id].(inst := s.lives[id].inst.Ended(s.clock)))
    case _ => false
  }

  ghost predicate ProcessStep(s: State, s': State, step: Step)
    requires s.Known()
  {
    match step
    // a process exits, crashed or stopped
    case Die(id) => id in s.lives && s' == s.With(id, s.lives[id].(running := false))
    // its reaper takes the mutex, however late
    case Reap(id) =>
      s.mutex.Free? && id in s.lives && !s.lives[id].running && !s.lives[id].reaped
      && var r := s.lives[id].ref;
         var after := if r in s.loaded && s.loaded[r] == id then Unlink(s, {r}, Exit) else s;
         id in after.lives && s' == after.With(id, after.lives[id].(reaped := true))
    case _ => false
  }

  /** The sweeper looks at each instance and unloads it there and then. */
  ghost predicate SweepStep(c: Config, s: State, s': State, step: Step)
    requires s.Known()
  {
    match step
    case StartSweep(cutoff) => s.mutex.Free? && s' == s.(mutex := Sweeping(cutoff, s.loaded.Keys, None))
    case SweepLook(q) =>
      s.mutex.Sweeping? && s.mutex.idle.None? && q in s.mutex.todo && q in s.loaded
      && s' == s.(mutex := s.mutex.(todo := s.mutex.todo - {q},
                                    idle := if Evictable(c.keep, s.Table(), q) then Some(q) else None))
    case SweepDecide =>
      s.mutex.Sweeping? && s.mutex.idle.Some? && s.mutex.idle.value in s.loaded
      && var q := s.mutex.idle.value;
         s' == (if s.Table()[q].lastUsed < s.mutex.cutoff then Unlink(s, {q}, Idle) else s)
               .(mutex := s.mutex.(idle := None))
    case EndSweep => s.mutex.Sweeping? && s.mutex.todo == {} && s.mutex.idle.None? && s' == s.(mutex := Free)
    case _ => false
  }

  ghost predicate Next(c: Config, s: State, s': State, step: Step)
    requires s.Known()
  {
    || LoadStep(c, s, s', step)
    || RoomStep(c, s, s', step)
    || CallerStep(s, s', step)
    || ProcessStep(s, s', step)
    || SweepStep(c, s, s', step)
    || (step.Shutdown? && s.mutex.Free? && s' == Unlink(s, s.loaded.Keys, Stopped))
    || (step.Tick? && s' == s.(clock := s.clock + 1))
  }

  ghost predicate Init(s: State) {
    s.loaded == map[] && s.lives == map[] && s.flights == map[] && s.mutex.Free?
  }

  /** A run: its states, and the step between each and the next. */
  ghost predicate Run(c: Config, states: seq<State>, steps: seq<Step>) {
    && |states| == |steps| + 1 && Init(states[0])
    && forall i :: 0 <= i < |steps| ==> StepAt(c, states, steps, i)
  }

  ghost predicate StepAt(c: Config, states: seq<State>, steps: seq<Step>, i: int)
    requires |states| == |steps| + 1 && 0 <= i < |steps|
  {
    states[i].Known() && Next(c, states[i], states[i + 1], steps[i])
  }

  // ----- ownership

  /** The table holds, for each reference, the one instance of it that has not
      left; every instance is in the table or has left for one cause. */
  ghost predicate Owned(s: State) {
    && s.Known()
    && (forall r :: r in s.loaded ==> s.lives[s.loaded[r]].ref == r && s.lives[s.loaded[r]].left.None?)
    && (forall i :: i in s.lives && s.lives[i].left.None? ==> s.lives[i].ref in s.loaded && s.loaded[s.lives[i].ref] == i)
    && (forall i :: i in s.lives ==> i < s.next)
  }

  /** A load past its second look is of a reference not in the table. */
  ghost predicate AwayFromTable(s: State) {
    forall r :: r in s.flights && (s.flights[r].Checked? || s.flights[r].MakingRoom? || s.flights[r].Roomy?) ==>
                  r !in s.loaded
  }

  /** What a look over the table knows of it: it has summed what it has read,
      the candidate is one it found idle, and no reading is later than the
      use it read. */
  ghost predicate ScanKept(s: State, k: Scan)
    requires s.Known()
  {
    && k.todo <= s.loaded.Keys
    && k.used == Used(s.Table() - k.todo)
    && k.seen.Keys <= s.loaded.Keys - k.todo
    && (if k.best.Some? then k.best.value in k.seen else k.seen == map[] && k.glance.Nothing?)
    && (forall q :: q in k.seen ==> k.seen[q] <= s.Table()[q].lastUsed)
    && (!k.glance.Nothing? ==> k.glance.q in s.loaded.Keys - k.todo && k.glance.q !in k.seen)
    && (k.glance.LastRead? ==> k.glance.at <= s.Table()[k.glance.q].lastUsed)
  }

  /** Unless misled, the candidate is the least recently used of those found
      idle, by what was read of them. */
  ghost predicate Ranked(k: Scan) {
    k.best.Some? && k.best.value in k.seen && !k.misled ==>
      forall q :: q in k.seen ==> k.seen[k.best.value] <= k.seen[q]
  }

  /** No use is later than now. */
  ghost predicate Clocked(s: State) {
    forall i :: i in s.lives ==> s.lives[i].inst.lastUsed <= s.clock
  }

  ghost predicate Core(s: State) {
    Owned(s) && AwayFromTable(s) && Clocked(s)
  }

  ghost predicate Inv(s: State) {
    Core(s) && (s.mutex.ForRoom? ==> ScanKept(s, s.mutex.scan) && Ranked(s.mutex.scan))
  }

  /** Nobody's reference changes, nor the cause anyone left for. */
  ghost predicate Settled(s: State, s': State) {
    forall i :: i in s.lives ==>
      i in s'.lives && s'.lives[i].ref == s.lives[i].ref && (s.lives[i].left.Some? ==> s'.lives[i].left == s.lives[i].left)
  }

  lemma UnlinkCore(s: State, gone: set<Ref>, cause: Cause)
    requires Core(s) && gone <= s.loaded.Keys
    ensures Core(Unlink(s, gone, cause)) && Settled(s, Unlink(s, gone, cause))
  {
    var s' := Unlink(s, gone, cause);
    forall i | i in s'.lives && s'.lives[i].left.None?
      ensures s'.lives[i].ref in s'.loaded && s'.loaded[s'.lives[i].ref] == i
    {
      assert s.lives[i].left.None?;
    }
  }

  lemma LoadCore(c: Config, s: State, s': State, step: Step)
    requires Core(s) && LoadStep(c, s, s', step)
    ensures Core(s') && Settled(s, s')
  {
    if step.Insert? {
      InsertCore(c, s, s', step.r);
    } else {
      assert s'.loaded == s.loaded && s'.lives == s.lives;
    }
  }

  lemma InsertCore(c: Config, s: State, s': State, r: Ref)
    requires Core(s) && LoadStep(c, s, s', Insert(r))
    ensures Core(s') && Settled(s, s')
  {
  }

  lemma RoomCore(c: Config, s: State, s': State, step: Step)
    requires Core(s) && RoomStep(c, s, s', step)
    requires step.Evict? ==> s.mutex.scan.best.value in s.loaded
    ensures Core(s') && Settled(s, s')
  {
    if step.Evict? {
      UnlinkCore(s, {s.mutex.scan.best.value}, Memory);
    }
  }

  lemma CallerCore(s: State, s': State, step: Step)
    requires Core(s) && CallerStep(s, s', step)
    ensures Core(s') && Settled(s, s')
  {
  }

  lemma ProcessCore(s: State, s': State, step: Step)
    requires Core(s) && ProcessStep(s, s', step)
    ensures Core(s') && Settled(s, s')
  {
    var id, after := step.id, s;
    if step.Reap? && s.lives[id].ref in s.loaded && s.loaded[s.lives[id].ref] == id {
      UnlinkCore(s, {s.lives[id].ref}, Exit);
      after := Unlink(s, {s.lives[id].ref}, Exit);
    }
    MarkedCore(after, s', id);
  }

  /** Noting that a process has exited, or been reaped, moves nothing. */
  lemma MarkedCore(s: State, s': State, id: Id)
    requires Core(s) && id in s.lives && id in s'.lives
    requires s' == s.With(id, s'.lives[id]) && s'.lives[id].(running := true, reaped := true)
             == s.lives[id].(running := true, reaped := true)
    ensures Core(s') && Settled(s, s')
  {
  }

  lemma SweepCore(c: Config, s: State, s': State, step: Step)
    requires Core(s) && SweepStep(c, s, s', step)
    ensures Core(s') && Settled(s, s')
  {
    if step.SweepDecide? {
      UnlinkCore(s, {s.mutex.idle.value}, Idle);
    }
  }

  lemma CoreStep(c: Config, s: State, s': State, step: Step)
    requires Inv(s) && Next(c, s, s', step)
    ensures Core(s') && Settled(s, s')
  {
    if LoadStep(c, s, s', step) {
      LoadCore(c, s, s', step);
    } else if RoomStep(c, s, s', step) {
      RoomCore(c, s, s', step);
    } else if CallerStep(s, s', step) {
      CallerCore(s, s', step);
    } else if ProcessStep(s, s', step) {
      ProcessCore(s, s', step);
    } else if SweepStep(c, s, s', step) {
      SweepCore(c, s, s', step);
    } else if step.Shutdown? {
      UnlinkCore(s, s.loaded.Keys, Stopped);
    }
  }

  /** The table holds the same instances, at the same footprints, and none used
      earlier than before. */
  ghost predicate Aged(s: State, s': State)
    requires s.Known() && s'.Known()
  {
    && s'.loaded == s.loaded
    && forall r :: r in s.loaded ==>
         s'.Table()[r].memory == s.Table()[r].memory && s.Table()[r].lastUsed <= s'.Table()[r].lastUsed
  }

  lemma ScanStays(s: State, s': State, k: Scan)
    requires s.Known() && s'.Known() && ScanKept(s, k) && Aged(s, s')
    ensures ScanKept(s', k)
  {
    UsedSame(s.Table() - k.todo, s'.Table() - k.todo);
  }

  lemma SumGrows(m: Loaded, todo: set<Ref>, q: Ref)
    requires q in m && q in todo
    ensures Used(m - (todo - {q})) == Used(m - todo) + m[q].memory
  {
    assert m - (todo - {q}) == (m - todo)[q := m[q]];
    UsedMore(m - todo, q, m[q]);
  }

  lemma LookKeeps(c: Config, s: State, s': State, k: Scan, q: Ref)
    requires Inv(s) && s.mutex == ForRoom(k) && Looked(c, s, s', k, q) && s'.Known()
    ensures ScanKept(s', s'.mutex.scan) && Ranked(s'.mutex.scan)
  {
    assert s'.Table() == s.Table();
    SumGrows(s.Table(), k.todo, q);
  }

  lemma RoomKeeps(c: Config, s: State, s': State, step: Step)
    requires Inv(s) && RoomStep(c, s, s', step) && s'.mutex.ForRoom? && s'.Known()
    ensures ScanKept(s', s'.mutex.scan) && Ranked(s'.mutex.scan)
  {
    if step.Look? {
      LookKeeps(c, s, s', s.mutex.scan, step.q);
    } else {
      assert s'.Table() == s.Table();
      assert s.Table() - s.loaded.Keys == map[];
    }
  }

  lemma CallerAges(s: State, s': State, step: Step)
    requires Core(s) && CallerStep(s, s', step) && s'.Known()
    ensures s'.mutex == s.mutex && Aged(s, s')
  {
  }

  /** While the look over the table goes on, nothing else than using instances
      happens to it. */
  lemma OthersAge(c: Config, s: State, s': State, step: Step)
    requires Inv(s) && Next(c, s, s', step) && s'.Known() && s.mutex.ForRoom? && !RoomStep(c, s, s', step)
    ensures s'.mutex == s.mutex && Aged(s, s')
  {
    if CallerStep(s, s', step) {
      CallerAges(s, s', step);
    } else {
      assert s'.loaded == s.loaded;
      assert forall i :: i in s.lives ==> s'.lives[i].inst == s.lives[i].inst;
    }
  }

  lemma InvStep(c: Config, s: State, s': State, step: Step)
    requires Inv(s) && Next(c, s, s', step)
    ensures Inv(s')
  {
    CoreStep(c, s, s', step);
    if s'.mutex.ForRoom? {
      if RoomStep(c, s, s', step) {
        RoomKeeps(c, s, s', step);
      } else {
        OthersAge(c, s, s', step);
        ScanStays(s, s', s.mutex.scan);
      }
    }
  }

  lemma {:induction false} RunInv(c: Config, states: seq<State>, steps: seq<Step>, i: nat)
    requires Run(c, states, steps) && i < |states|
    ensures Inv(states[i])
  {
    if i > 0 {
      RunInv(c, states, steps, i - 1);
      assert StepAt(c, states, steps, i - 1);
      InvStep(c, states[i - 1], states[i], steps[i - 1]);
    }
  }

  lemma RunStep(c: Config, states: seq<State>, steps: seq<Step>, i: nat, s: State, s': State, step: Step)
    requires Run(c, states, steps) && 0 < i < |states|
    requires s == states[i - 1] && s' == states[i] && step == steps[i - 1]
    ensures Inv(s) && Inv(s') && Next(c, s, s', step)
  {
    RunInv(c, states, steps, i - 1);
    RunInv(c, states, steps, i);
    assert StepAt(c, states, steps, i - 1);
  }

  /** In every run an insertion finds its reference free: it replaces nothing,
      and everything already loaded stays loaded. */
  lemma InsertReplacesNothing(c: Config, states: seq<State>, steps: seq<Step>, i: nat)
    requires Run(c, states, steps) && i < |steps| && steps[i].Insert?
    ensures steps[i].r !in states[i].loaded && steps[i].r in states[i + 1].loaded
    ensures states[i + 1].loaded - {steps[i].r} == states[i].loaded
  {
    RunInv(c, states, steps, i);
    assert StepAt(c, states, steps, i);
  }

  /** An instance leaves the table once: whatever took it out, nothing later
      takes it out again or brings it back. */
  lemma {:induction false} LeavesOnce(c: Config, states: seq<State>, steps: seq<Step>, i: nat, j: nat, id: Id)
    requires Run(c, states, steps) && i <= j < |states| && id in states[i].lives
    ensures id in states[j].lives && states[j].lives[id].ref == states[i].lives[id].ref
    ensures states[i].lives[id].left.Some? ==>
              states[j].lives[id].left == states[i].lives[id].left
              && id !in states[j].loaded.Values
    decreases j - i
  {
    RunInv(c, states, steps, j);
    if i < j {
      LeavesOnce(c, states, steps, i, j - 1, id);
      RunInv(c, states, steps, j - 1);
      assert StepAt(c, states, steps, j - 1);
      CoreStep(c, states[j - 1], states[j], steps[j - 1]);
    }
  }

  /** An instance is in the table exactly while it has not left. */
  lemma InTableUntilItLeaves(c: Config, states: seq<State>, steps: seq<Step>, i: nat, id: Id)
    requires Run(c, states, steps) && i < |states| && id in states[i].lives
    ensures states[i].lives[id].left.None? <==> id in states[i].loaded.Values
  {
    RunInv(c, states, steps, i);
  }

  /** A late reaper touches only its own instance: a newer one of the same
      reference stays where it is, and nothing else moves either. */
  lemma LateReaper(c: Config, states: seq<State>, steps: seq<Step>, i: nat)
    requires Run(c, states, steps) && i < |steps| && steps[i].Reap?
    ensures forall r :: r in states[i].loaded && states[i].loaded[r] != steps[i].id ==>
                          r in states[i + 1].loaded && states[i + 1].loaded[r] == states[i].loaded[r]
    ensures steps[i].id !in states[i + 1].loaded.Values
  {
    RunInv(c, states, steps, i);
    assert StepAt(c, states, steps, i);
  }
}
