/** The store's lock between processes: open, wait, lock, read the layout
    again, change it or collect, unlock, with any of them able to stop at any
    step. */
module Locking {
  import opened Wrappers
  import opened Graph
  import opened Collection
  import opened Repair
  import opened Removal

  type Pid = nat

  type Entries = set<Entry>

  /** What one save changes: an entry added, taking its tag from any that had
      it; a tag taken away; manifests dropped; untagged ones forgotten. */
  datatype Update = Add(e: Entry) | Untag(ref: string) | Drop(gone: set<Digest>) | Strike(ds: set<Digest>)

  ghost function Apply(es: Entries, u: Update): Entries {
    match u
    case Add(e) => WithoutTag(es, e.ref) + {e}
    case Untag(ref) => WithoutTag(es, ref)
    case Drop(gone) => set e | e in es && e.desc.digest !in gone
    case Strike(ds) => set e | e in es && (e.Tagged() || e.desc.digest !in ds)
  }

  ghost function WithoutTag(es: Entries, ref: string): Entries {
    set e | e in es :: if e.ref == ref then e.(ref := "") else e
  }

  /** The index all updates so far make, oldest first. */
  ghost function Replay(log: seq<Update>): Entries {
    if log == [] then {} else Apply(Replay(log[..|log| - 1]), log[|log| - 1])
  }

  /** The index file: whole, or caught halfway through a save. */
  datatype Disk = Whole(entries: Entries) | Torn

  datatype Mode = Exclusive | Shared

  /** Where a process is: not open; open with the view it read then, if it
      read one; granted the lock but not reloaded; holding it with a view, and
      perhaps halfway through a collection or a removal, which has settled what
      it keeps; or halfway through saving an update. */
  datatype Proc =
    | Closed
    | Opened(view: Option<Entries>)
    | Granted(mode: Mode, view: Option<Entries>)
    | Holding(mode: Mode, entries: Entries, keeps: Option<set<Digest>>)
    | Saving(entries: Entries, update: Update, keeps: Option<set<Digest>>)
  {
    predicate Locks() {
      Granted? || Holding? || Saving?
    }

    predicate Excludes() {
      Saving? || ((Granted? || Holding?) && mode == Exclusive)
    }

    predicate Deletes() {
      (Holding? || Saving?) && keeps.Some?
    }
  }

  /** `locked` is the lock's own record of who holds it, as the system keeps
      it; `log` is every update a save completed, in order. */
  datatype State = State(
    disk: Disk, blobs: Layout, procs: map<Pid, Proc>,
    locked: map<Pid, Mode>, log: seq<Update>)
  {
    function Proc(p: Pid): Proc {
      if p in procs then procs[p] else Closed
    }

    function With(p: Pid, q: Proc): State {
      this.(procs := procs[p := q])
    }
  }

  ghost predicate Init(s: State) {
    s.disk == Whole({}) && s.procs == map[] && s.locked == map[] && s.log == []
  }

  datatype Step =
    | Open(look: bool) | Grant(mode: Mode) | Reload(ok: bool)
    | Push(more: Layout) | BeginSave(update: Update) | EndSave
    | StartCollection | StartRemoval(root: Digest) | Sweep(gone: set<Digest>) | EndDeleting | Unlock | Crash

  /** A lock is granted beside others only when all of them are shared. */
  predicate Grantable(s: State, mode: Mode) {
    if mode == Exclusive then s.locked == map[] else forall p :: p in s.locked ==> s.locked[p] == Shared
  }

  /** Everything a descriptor reaches is stored, and reads. */
  ghost predicate Complete(l: Layout, d: Descriptor) {
    forall x :: x in Nodes(l, {d}) ==> x.digest in l && Successors(l, x).Some?
  }

  predicate IsArtifact(e: Entry) {
    e.Tagged() && !e.describes
  }

  /** What collection keeps of these blobs, by these entries, once those whose
      blob is missing are dropped. */
  ghost function KeptOf(l: Layout, es: Entries): set<Digest> {
    Kept(l, Repaired(Contents(l, es)).entries)
  }

  /** A removal takes descriptions: none of the tagged artifacts is among what
      goes. */
  ghost predicate SparesArtifacts(es: Entries, root: Digest) {
    forall e :: e in es && IsArtifact(e) ==> e in Others(es, root)
  }

  /** What a collection settles to keep, or a removal: all that what stays
      keeps. */
  ghost function SettledBy(step: Step, l: Layout, es: Entries): set<Digest> {
    match step
    case StartRemoval(root) => Kept(l, Others(es, root))
    case _ => KeptOf(l, es)
  }

  /** A process tags an artifact once all of it is stored. A collection or a
      removal, which settles first what it keeps, drops what is missing or not
      kept, and strikes untagged entries. */
  ghost predicate Savable(s: State, q: Proc, u: Update)
    requires q.Holding?
  {
    match u
    case Add(e) => q.keeps.None? && (IsArtifact(e) ==> Complete(s.blobs, e.desc))
    case Untag(ref) => ref != ""
    case Drop(gone) => q.keeps.Some? && gone * s.blobs.Keys !! q.keeps.value
    case Strike(ds) => q.keeps.Some?
  }

  /** What one process may do next. The rule under study is whether a process
      granted the lock reads the layout again, or goes on with what it read
      when it opened. */
  ghost predicate Next(rereads: bool, s: State, s': State, p: Pid, step: Step) {
    var q := s.Proc(p);
    match step
    case Open(look) =>
      q.Closed? && (look ==> s.disk.Whole?)
      && s' == s.With(p, Opened(if look then Some(s.disk.entries) else None))
    case Grant(mode) =>
      q.Opened? && p !in s.locked && Grantable(s, mode)
      && s' == s.With(p, Granted(mode, q.view)).(locked := s.locked[p := mode])
    case Reload(ok) =>
      q.Granted?
      && if !ok then s' == s.With(p, Opened(q.view)).(locked := s.locked - {p})
         else if rereads then s.disk.Whole? && s' == s.With(p, Holding(q.mode, s.disk.entries, None))
         else q.view.Some? && s' == s.With(p, Holding(q.mode, q.view.value, None))
    case Push(more) =>
      q.Holding? && q.mode == Exclusive && q.keeps.None? && more.Keys !! s.blobs.Keys
      && s' == s.(blobs := s.blobs + more)
    case BeginSave(u) =>
      q.Holding? && q.mode == Exclusive && Savable(s, q, u)
      && s' == s.With(p, Saving(Apply(q.entries, u), u, q.keeps)).(disk := Torn)
    case EndSave =>
      q.Saving?
      && s' == s.With(p, Holding(Exclusive, q.entries, q.keeps))
                .(disk := Whole(q.entries), log := s.log + [q.update])
    case StartCollection =>
      q.Holding? && q.mode == Exclusive && q.keeps.None?
      && s' == s.With(p, Holding(Exclusive, q.entries, Some(KeptOf(s.blobs, q.entries))))
    case StartRemoval(root) =>
      q.Holding? && q.mode == Exclusive && q.keeps.None? && SparesArtifacts(q.entries, root)
      && s' == s.With(p, Holding(Exclusive, q.entries, Some(SettledBy(step, s.blobs, q.entries))))
    case Sweep(gone) =>
      q.Holding? && q.keeps.Some? && gone !! q.keeps.value && s' == s.(blobs := s.blobs - gone)
    case EndDeleting => q.Holding? && q.keeps.Some? && s' == s.With(p, Holding(q.mode, q.entries, None))
    case Unlock =>
      q.Holding? && q.keeps.None?
      && s' == s.With(p, Opened(Some(q.entries))).(locked := s.locked - {p})
    case Crash =>
      s' == s.With(p, Closed).(locked := s.locked - {p})
  }

  // ----- what every step keeps

  /** The lock is held by exactly those past its grant, in the mode they asked
      for, and an exclusive holder is alone. Only one that is exclusive
      deletes. */
  ghost predicate LockKept(s: State) {
    && (forall p :: OnRecord(s, p))
    && (forall p, q :: p in s.locked && q in s.locked && s.locked[p] == Exclusive ==> p == q)
  }

  ghost predicate OnRecord(s: State, p: Pid) {
    && (p in s.locked <==> s.Proc(p).Locks())
    && (p in s.locked ==> (s.locked[p] == Exclusive <==> s.Proc(p).Excludes()))
    && (s.Proc(p).Deletes() ==> s.Proc(p).Excludes())
  }

  /** A whole index is the replay of all completed updates, and is what every
      holder's view is. */
  ghost predicate ViewsCurrent(s: State) {
    && (s.disk.Whole? ==> s.disk.entries == Replay(s.log))
    && (forall p :: s.Proc(p).Holding? ==> s.disk == Whole(s.Proc(p).entries))
    && (forall p :: s.Proc(p).Saving? ==> s.Proc(p).entries == Apply(Replay(s.log), s.Proc(p).update))
  }

  ghost predicate AllComplete(l: Layout, es: Entries) {
    forall e :: e in es && IsArtifact(e) ==> Complete(l, e.desc)
  }

  /** What a collection or removal has settled to keep holds every tagged
      artifact. */
  ghost predicate Covered(l: Layout, es: Entries, keeps: set<Digest>) {
    forall e :: e in es && IsArtifact(e) ==> Reach(l, {e.desc}) <= keeps
  }

  /** No tagged artifact lacks anything, nor does one being tagged; and a
      collection or removal going on keeps all of each. */
  ghost predicate TagsWhole(s: State) {
    && AllComplete(s.blobs, Replay(s.log))
    && (forall p :: s.Proc(p).Saving? ==> AllComplete(s.blobs, s.Proc(p).entries))
    && (forall p :: s.Proc(p).Deletes() ==>
          Covered(s.blobs, Replay(s.log), s.Proc(p).keeps.value) && Covered(s.blobs, s.Proc(p).entries, s.Proc(p).keeps.value))
  }

  ghost predicate Inv(s: State) {
    LockKept(s) && ViewsCurrent(s) && TagsWhole(s)
  }

  lemma InitInv(s: State)
    requires Init(s)
    ensures Inv(s)
  {
  }

  lemma RecordStep(rereads: bool, s: State, s': State, p: Pid, step: Step)
    requires OnRecord(s, p) && Next(rereads, s, s', p, step)
    ensures OnRecord(s', p) && (forall q :: q != p ==> s'.Proc(q) == s.Proc(q))
    ensures forall q :: q != p ==> (q in s'.locked <==> q in s.locked) && (q in s.locked ==> s'.locked[q] == s.locked[q])
    ensures p in s'.locked && p !in s.locked ==> step.Grant? && Grantable(s, s'.locked[p])
    ensures p in s'.locked && p in s.locked ==> s'.locked[p] == s.locked[p]
  {
  }

  lemma LockStep(rereads: bool, s: State, s': State, p: Pid, step: Step)
    requires LockKept(s) && Next(rereads, s, s', p, step)
    ensures LockKept(s')
  {
    assert OnRecord(s, p);
    RecordStep(rereads, s, s', p, step);
    forall q
      ensures OnRecord(s', q)
    {
      assert OnRecord(s, q);
    }
  }

  /** An exclusive holder excludes every other holder. */
  lemma AloneInside(s: State, p: Pid)
    requires LockKept(s) && s.Proc(p).Excludes()
    ensures forall q :: q != p ==> !s.Proc(q).Locks()
  {
    assert OnRecord(s, p) && p in s.locked;
    forall q | q != p
      ensures !s.Proc(q).Locks()
    {
      assert OnRecord(s, q);
    }
  }

  lemma ViewStep(s: State, s': State, p: Pid, step: Step)
    requires Inv(s) && Next(true, s, s', p, step)
    ensures ViewsCurrent(s')
  {
    assert forall q :: q != p ==> s'.Proc(q) == s.Proc(q);
    if s.Proc(p).Excludes() {
      AloneInside(s, p);
    }
    if step.EndSave? {
      assert s'.log[..|s.log|] == s.log;
    }
  }

  /** A complete graph is the same graph when blobs are added. */
  lemma CompleteGrows(l: Layout, more: Layout, d: Descriptor)
    requires Complete(l, d) && more.Keys !! l.Keys
    ensures Complete(l + more, d) && Nodes(l + more, {d}) == Nodes(l, {d})
  {
    var l' := l + more;
    forall x | x in Nodes(l, {d})
      ensures SuccSet(l', x) == SuccSet(l, x) && Successors(l', x).Some?
    {
      assert x.digest in l;
    }
    NodesClosed(l, {d});
    NodesLeast(l', {d}, Nodes(l, {d}));
    NodesClosed(l', {d});
    NodesLeast(l, {d}, Nodes(l', {d}));
  }

  /** And when blobs are swept that it does not reach. */
  lemma CompleteSwept(l: Layout, gone: set<Digest>, d: Descriptor)
    requires Complete(l, d) && gone !! Reach(l, {d})
    ensures Complete(l - gone, d) && Reach(l - gone, {d}) == Reach(l, {d})
  {
    ReachUnaffected(l, {d}, gone);
    forall x | x in Nodes(l, {d})
      ensures x.digest in l - gone && Successors(l - gone, x).Some?
    {
      assert Placed(l, x) && x.digest in Reach(l, {d});
    }
  }

  /** A tagged artifact all of which is stored is kept whole. */
  lemma ArtifactKept(l: Layout, es: Entries, e: Entry)
    requires e in es && IsArtifact(e) && Complete(l, e.desc)
    ensures Reach(l, {e.desc}) <= KeptOf(l, es)
  {
    var ds := Repaired(Contents(l, es)).entries;
    NodesClosed(l, {e.desc});
    assert e in Holders(l, ds);
    var roots := Descs(Holders(l, ds));
    NodesMono(l, {e.desc}, roots + Descs(UntaggedOn(ds, Reach(l, roots))));
  }

  lemma SparedKept(l: Layout, es: Entries, root: Digest)
    requires AllComplete(l, es) && SparesArtifacts(es, root)
    ensures Covered(l, es, Kept(l, Others(es, root)))
  {
    var rest := Others(es, root);
    var roots := Descs(Holders(l, rest));
    forall e | e in es && IsArtifact(e)
      ensures Reach(l, {e.desc}) <= Kept(l, rest)
    {
      assert e in Holders(l, rest);
      NodesMono(l, {e.desc}, roots + Descs(UntaggedOn(rest, Reach(l, roots))));
    }
  }

  /** With one head per manifest, removing a description spares every artifact. */
  lemma DescriptionsSpareArtifacts(l: Layout, es: Entries, target: Entry)
    requires WellFormed(l, es) && target in es && target.describes
    ensures SparesArtifacts(es, target.desc.digest)
  {
    var root := target.desc.digest;
    var described := set e | e in es && e.describes :: e.desc.digest;
    GoingLeast(es, root, described);
    forall e | e in es && IsArtifact(e)
      ensures e in Others(es, root)
    {
      forall f | f in es && f.desc.digest == e.desc.digest
        ensures !f.describes
      {
        assert Reads(l, e) && Reads(l, f);
      }
    }
  }

  lemma AllKept(l: Layout, es: Entries)
    requires AllComplete(l, es)
    ensures Covered(l, es, KeptOf(l, es))
  {
    forall e | e in es && IsArtifact(e)
      ensures Reach(l, {e.desc}) <= KeptOf(l, es)
    {
      ArtifactKept(l, es, e);
    }
  }

  /** Any update but a tag leaves no artifact that was not there. */
  lemma ArtifactsAfter(es: Entries, u: Update)
    ensures forall e :: e in Apply(es, u) && IsArtifact(e) ==> e in es || u == Add(e)
  {
  }

  lemma PushWhole(l: Layout, more: Layout, es: Entries)
    requires AllComplete(l, es) && more.Keys !! l.Keys
    ensures AllComplete(l + more, es)
  {
    forall e | e in es && IsArtifact(e)
      ensures Complete(l + more, e.desc)
    {
      CompleteGrows(l, more, e.desc);
    }
  }

  lemma SweepWhole(l: Layout, gone: set<Digest>, es: Entries, keeps: set<Digest>)
    requires AllComplete(l, es) && Covered(l, es, keeps) && gone !! keeps
    ensures AllComplete(l - gone, es) && Covered(l - gone, es, keeps)
  {
    forall e | e in es && IsArtifact(e)
      ensures Complete(l - gone, e.desc) && Reach(l - gone, {e.desc}) <= keeps
    {
      CompleteSwept(l, gone, e.desc);
    }
  }

  lemma SaveWhole(l: Layout, es: Entries, u: Update, keeps: Option<set<Digest>>)
    requires AllComplete(l, es) && (u.Add? ==> keeps.None? && (IsArtifact(u.e) ==> Complete(l, u.e.desc)))
    requires keeps.Some? ==> Covered(l, es, keeps.value)
    ensures AllComplete(l, Apply(es, u)) && (keeps.Some? ==> Covered(l, Apply(es, u), keeps.value))
  {
    ArtifactsAfter(es, u);
  }

  lemma DeletersExclude(s: State, p: Pid)
    requires LockKept(s) && s.Proc(p).Deletes()
    ensures s.Proc(p).Excludes() && forall q :: q != p ==> !s.Proc(q).Locks()
  {
    assert OnRecord(s, p);
    AloneInside(s, p);
  }

  /** What a step does to the blobs, the index made so far and the process that
      takes it, as far as the tagged artifacts are concerned. */
  lemma OwnTagStep(s: State, s': State, p: Pid, step: Step)
    requires Inv(s) && Next(true, s, s', p, step)
    ensures AllComplete(s'.blobs, Replay(s'.log))
    ensures s'.Proc(p).Saving? ==> AllComplete(s'.blobs, s'.Proc(p).entries)
    ensures s'.Proc(p).Deletes() ==>
              Covered(s'.blobs, Replay(s'.log), s'.Proc(p).keeps.value)
              && Covered(s'.blobs, s'.Proc(p).entries, s'.Proc(p).keeps.value)
  {
    var q, es := s.Proc(p), Replay(s.log);
    match step
    case Push(more) => PushWhole(s.blobs, more, es);
    case BeginSave(u) => SaveWhole(s.blobs, es, u, q.keeps);
    case EndSave => assert s'.log[..|s.log|] == s.log;
    case StartCollection => AllKept(s.blobs, es);
    case StartRemoval(root) => SparedKept(s.blobs, es, root);
    case Sweep(gone) => SweepWhole(s.blobs, gone, es, q.keeps.value);
    case _ =>
  }

  lemma TagStep(s: State, s': State, p: Pid, step: Step)
    requires Inv(s) && Next(true, s, s', p, step)
    ensures TagsWhole(s')
  {
    OwnTagStep(s, s', p, step);
    assert OnRecord(s, p);
    RecordStep(true, s, s', p, step);
    if s.Proc(p).Excludes() {
      AloneInside(s, p);
    } else {
      assert s'.blobs == s.blobs && s'.log == s.log;
    }
  }

  lemma InvStep(s: State, s': State, p: Pid, step: Step)
    requires Inv(s) && Next(true, s, s', p, step)
    ensures Inv(s')
  {
    LockStep(true, s, s', p, step);
    ViewStep(s, s', p, step);
    TagStep(s, s', p, step);
  }

  // ----- over whole runs

  datatype Move = Move(p: Pid, step: Step)

  /** A run: its states, and the move between each and the next. */
  ghost predicate Run(rereads: bool, states: seq<State>, moves: seq<Move>) {
    && |states| == |moves| + 1 && Init(states[0])
    && forall i :: 0 <= i < |moves| ==> Next(rereads, states[i], states[i + 1], moves[i].p, moves[i].step)
  }

  lemma {:induction false} RunInv(states: seq<State>, moves: seq<Move>, i: nat)
    requires Run(true, states, moves) && i < |states|
    ensures Inv(states[i])
  {
    if i == 0 {
      InitInv(states[0]);
    } else {
      RunInv(states, moves, i - 1);
      InvStep(states[i - 1], states[i], moves[i - 1].p, moves[i - 1].step);
    }
  }

  /** In every state of every run, by any number of processes: whoever holds
      the lock with a view sees the index on disk; that index is all completed
      updates, in order; and all that a tagged artifact reaches is stored. */
  lemma HoldersSeeTheDisk(states: seq<State>, moves: seq<Move>, i: nat, p: Pid)
    requires Run(true, states, moves) && i < |states|
    ensures var s := states[i];
            && (s.Proc(p).Holding? ==> s.disk == Whole(s.Proc(p).entries) && s.Proc(p).entries == Replay(s.log))
            && (s.disk.Whole? ==> s.disk.entries == Replay(s.log))
            && AllComplete(s.blobs, Replay(s.log))
  {
    RunInv(states, moves, i);
  }

  /** No update is lost: once completed it stays in the log, at its place. */
  lemma {:induction false} UpdatesStay(states: seq<State>, moves: seq<Move>, i: nat, j: nat)
    requires Run(true, states, moves) && i <= j < |states|
    ensures states[i].log <= states[j].log
    decreases j - i
  {
    if i < j {
      UpdatesStay(states, moves, i, j - 1);
      assert Next(true, states[j - 1], states[j], moves[j - 1].p, moves[j - 1].step);
    }
  }

  /** The lock never outlives its holder: it is on record for exactly those
      between its grant and their unlock, failed reload or end; so with nobody
      there, whoever waits for it can be granted it alone. */
  lemma LockEndsWithItsHolder(states: seq<State>, moves: seq<Move>, i: nat)
    requires Run(true, states, moves) && i < |states|
    ensures forall p :: p in states[i].locked <==> states[i].Proc(p).Locks()
    ensures (forall p :: !states[i].Proc(p).Locks()) ==>
              forall p :: states[i].Proc(p).Opened? ==>
                exists s' :: Next(true, states[i], s', p, Grant(Exclusive)) && s'.Proc(p).Granted?
  {
    RunInv(states, moves, i);
    var s := states[i];
    forall p
      ensures p in s.locked <==> s.Proc(p).Locks()
    {
      assert OnRecord(s, p);
    }
    if forall p :: !s.Proc(p).Locks() {
      assert s.locked == map[];
      forall p | s.Proc(p).Opened?
        ensures exists s' :: Next(true, s, s', p, Grant(Exclusive)) && s'.Proc(p).Granted?
      {
        var s' := s.With(p, Granted(Exclusive, s.Proc(p).view)).(locked := s.locked[p := Exclusive]);
        assert Next(true, s, s', p, Grant(Exclusive)) && s'.Proc(p).Granted?;
      }
    }
  }

  // ----- what a collection or a removal takes

  /** One collection or removal of q goes on, taking nothing it keeps, or starts,
      settling what it keeps on the index every update so far makes. */
  ghost predicate DeletingGoesOn(s: State, s': State, p: Pid, step: Step, q: Pid)
    requires s'.Proc(q).Deletes()
  {
    if s.Proc(q).Deletes()
    then s.Proc(q).keeps == s'.Proc(q).keeps && s.blobs.Keys * s.Proc(q).keeps.value <= s'.blobs.Keys
    else p == q && (step.StartCollection? || step.StartRemoval?) && s.disk == Whole(Replay(s.log)) && s'.blobs == s.blobs
         && s'.Proc(q).keeps == Some(SettledBy(step, s.blobs, Replay(s.log)))
  }

  lemma DeletingStep(s: State, s': State, p: Pid, step: Step, q: Pid)
    requires Inv(s) && Next(true, s, s', p, step) && s'.Proc(q).Deletes()
    ensures DeletingGoesOn(s, s', p, step, q)
  {
    assert forall x :: x != p ==> s'.Proc(x) == s.Proc(x);
    if s.Proc(q).Deletes() {
      DeletersExclude(s, q);
    }
  }

  lemma RunDeleting(states: seq<State>, moves: seq<Move>, j: nat, s: State, s': State, m: Move, q: Pid)
    requires Run(true, states, moves) && 0 < j < |states| && s'.Proc(q).Deletes()
    requires s == states[j - 1] && s' == states[j] && m == moves[j - 1]
    ensures DeletingGoesOn(s, s', m.p, m.step, q)
  {
    RunInv(states, moves, j - 1);
    DeletingStep(s, s', m.p, m.step, q);
  }

  /** A collection or removal going on at j began at h, and has taken nothing
      since of what it settled then to keep, by the index on disk, whoever wrote
      it. */
  ghost predicate BeganAt(states: seq<State>, moves: seq<Move>, h: nat, j: nat, q: Pid)
    requires |states| == |moves| + 1
  {
    && h < j < |states| && moves[h].p == q && (moves[h].step.StartCollection? || moves[h].step.StartRemoval?)
    && states[h].disk == Whole(Replay(states[h].log)) && states[j].Proc(q).Deletes()
    && var keeps := SettledBy(moves[h].step, states[h].blobs, Replay(states[h].log));
       states[j].Proc(q).keeps == Some(keeps) && states[h].blobs.Keys * keeps <= states[j].blobs.Keys
  }

  lemma {:induction false} DeletingBegan(states: seq<State>, moves: seq<Move>, j: nat, q: Pid) returns (h: nat)
    requires Run(true, states, moves) && j < |states| && states[j].Proc(q).Deletes()
    ensures BeganAt(states, moves, h, j, q)
    decreases j
  {
    assert j > 0;
    RunDeleting(states, moves, j, states[j - 1], states[j], moves[j - 1], q);
    if states[j - 1].Proc(q).Deletes() {
      h := DeletingBegan(states, moves, j - 1, q);
    } else {
      h := j - 1;
    }
  }

  /** A collection or a removal takes nothing it was to keep by the index as it
      stood on disk when it began, tags written by any process included; and
      leaves all of every artifact tagged there. */
  lemma DeletingKeeps(states: seq<State>, moves: seq<Move>, m: nat) returns (h: nat)
    requires Run(true, states, moves) && m < |moves| && moves[m].step.Sweep?
    ensures BeganAt(states, moves, h, m, moves[m].p)
    ensures states[h].blobs.Keys * SettledBy(moves[h].step, states[h].blobs, Replay(states[h].log))
            <= states[m + 1].blobs.Keys
    ensures AllComplete(states[m + 1].blobs, Replay(states[m + 1].log))
  {
    assert Next(true, states[m], states[m + 1], moves[m].p, moves[m].step);
    h := DeletingBegan(states, moves, m, moves[m].p);
    RunInv(states, moves, m + 1);
  }

  /** What a collection settles on is what its passes and the collector leave:
      the tagged descriptions it does not keep are those it untags itself. */
  lemma SettledIsCollected(l: Layout, es: Entries)
    requires WellFormed(l, es)
    ensures KeptOf(l, es) == CollectorKeeps(AfterPasses(Repaired(Contents(l, es))))
  {
    RepairedValid(Contents(l, es));
    HeldPredicts(Repaired(Contents(l, es)));
  }

  // ----- a torn index

  lemma TornStep(s: State, s': State, p: Pid, step: Step)
    requires Inv(s) && Next(true, s, s', p, step) && s'.disk.Torn?
    ensures s.disk.Torn? || s'.Proc(p).Saving?
    ensures forall q :: s.Proc(q).Saving? ==> s'.Proc(q).Saving? || (q == p && step.Crash?)
  {
    assert forall q :: q != p ==> s'.Proc(q) == s.Proc(q);
  }

  ghost predicate SaverStopped(states: seq<State>, moves: seq<Move>, j: nat) {
    j < |moves| && j < |states| && moves[j].step.Crash? && states[j].Proc(moves[j].p).Saving?
  }

  /** The index is torn only while its writer is still saving, or after one
      stopped halfway. */
  lemma {:induction false} TornOnlyBySaving(states: seq<State>, moves: seq<Move>, i: nat)
    requires Run(true, states, moves) && i < |states| && states[i].disk.Torn?
    ensures (exists p :: states[i].Proc(p).Saving?) || (exists j: nat :: j < i && SaverStopped(states, moves, j))
    decreases i
  {
    assert i > 0;
    var (s, m) := (states[i - 1], moves[i - 1]);
    RunInv(states, moves, i - 1);
    TornStep(s, states[i], m.p, m.step);
    if !states[i].Proc(m.p).Saving? {
      TornOnlyBySaving(states, moves, i - 1);
      if q :| s.Proc(q).Saving? {
        assert states[i].Proc(q).Saving? || SaverStopped(states, moves, i - 1);
      } else {
        var j: nat :| j < i - 1 && SaverStopped(states, moves, j);
      }
    }
  }
}
