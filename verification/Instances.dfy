/** The router's loaded instances: what they use, which may be unloaded, and
    the operations that hold the router's mutex throughout. */
module Instances {
  import opened Wrappers

  type Ref = string

  /** What the mutexes guard of one loaded instance. */
  datatype Inst = Inst(memory: nat, active: nat, lastUsed: nat) {
    function Touched(now: nat): Inst {
      this.(lastUsed := now)
    }

    function Began(now: nat): Inst {
      this.(active := active + 1, lastUsed := now)
    }

    function Ended(now: nat): Inst
      requires active > 0
    {
      this.(active := active - 1, lastUsed := now)
    }
  }

  type Loaded = map<Ref, Inst>

  /** The sum of the loaded instances' footprints. */
  ghost function Used(m: Loaded): nat {
    if m == map[] then 0
    else
      var r :| r in m;
      m[r].memory + Used(m - {r})
  }

  lemma {:induction false} UsedLess(m: Loaded, r: Ref)
    requires r in m
    ensures Used(m) == m[r].memory + Used(m - {r})
    decreases |m|
  {
    var q :| q in m && Used(m) == m[q].memory + Used(m - {q});
    if q != r {
      UsedLess(m - {q}, r);
      UsedLess(m - {r}, q);
      assert m - {q} - {r} == m - {r} - {q};
    }
  }

  lemma UsedMore(m: Loaded, r: Ref, i: Inst)
    requires r !in m
    ensures Used(m[r := i]) == Used(m) + i.memory
  {
    UsedLess(m[r := i], r);
    assert m[r := i] - {r} == m;
  }

  lemma LessPart(m: Loaded, part: set<Ref>, r: Ref)
    requires r in part
    ensures m - {r} - part == m - part
  {
    assert (m - {r} - part).Keys == (m - part).Keys;
  }

  lemma {:induction false} UsedPart(m: Loaded, part: set<Ref>)
    ensures Used(m - part) <= Used(m)
    decreases |m|
  {
    if m.Keys * part == {} {
      assert (m - part).Keys == m.Keys;
      assert m - part == m;
    } else {
      var r :| r in m.Keys * part;
      UsedLess(m, r);
      UsedPart(m - {r}, part);
      LessPart(m, part, r);
    }
  }

  /** Only recency and load changed: the sum is the same. */
  lemma {:induction false} UsedSame(m: Loaded, n: Loaded)
    requires m.Keys == n.Keys && forall r :: r in m ==> m[r].memory == n[r].memory
    ensures Used(m) == Used(n)
    decreases |m|
  {
    if r :| r in m {
      UsedLess(m, r);
      UsedLess(n, r);
      UsedSame(m - {r}, n - {r});
    } else {
      assert m == map[] && n == map[];
    }
  }

  /** Loaded, not pinned, and serving nothing. */
  predicate Evictable(keep: set<Ref>, m: Loaded, r: Ref) {
    r in m && r !in keep && m[r].active == 0
  }

  /** Least recently used among those that may be unloaded. */
  ghost predicate IsLru(keep: set<Ref>, m: Loaded, r: Ref) {
    Evictable(keep, m, r) && forall q :: Evictable(keep, m, q) ==> m[r].lastUsed <= m[q].lastUsed
  }

  ghost function Evictables(keep: set<Ref>, m: Loaded): set<Ref> {
    set r | r in m && Evictable(keep, m, r)
  }

  class Instance {
    const ref: Ref
    const memory: nat
    var active: nat
    var lastUsed: nat

    constructor (ref: Ref, memory: nat, now: nat)
      ensures this.ref == ref && this.memory == memory && active == 0 && lastUsed == now
    {
      this.ref, this.memory, this.active, this.lastUsed := ref, memory, 0, now;
    }

    function Value(): Inst
      reads this
    {
      Inst(memory, active, lastUsed)
    }

    method Touch(now: nat)
      modifies this
      ensures active == old(active) && lastUsed == now && Value() == old(Value()).Touched(now)
    {
      lastUsed := now;
    }

    method Begin(now: nat)
      modifies this
      ensures active == old(active) + 1 && lastUsed == now && Value() == old(Value()).Began(now)
    {
      active, lastUsed := active + 1, now;
    }

    method End(now: nat)
      requires active > 0
      modifies this
      ensures active == old(active) - 1 && lastUsed == now && Value() == old(Value()).Ended(now)
    {
      active, lastUsed := active - 1, now;
    }

    method Busy() returns (b: bool)
      ensures b <==> active > 0
    {
      b := active > 0;
    }
  }

  datatype LoadError = OverBudget | Exhausted

  class Table {
    const budget: int
    const keep: set<Ref>
    var loaded: map<Ref, Instance>

    ghost predicate Valid()
      reads this
    {
      forall r :: r in loaded ==> loaded[r].ref == r
    }

    /** The loaded instances as values. */
    ghost function Now(): Loaded
      reads this, loaded.Values
    {
      map r | r in loaded :: loaded[r].Value()
    }

    constructor (budget: int, keep: set<Ref>)
      ensures Valid() && loaded == map[] && this.budget == budget && this.keep == keep
    {
      this.budget, this.keep, this.loaded := budget, keep, map[];
    }

    /** The first look of a request: an instance found is touched at once, and
        nothing else of the table changes. */
    method Find(r: Ref, now: nat) returns (inst: Instance?)
      requires Valid()
      modifies if r in loaded then {loaded[r]} else {}
      ensures Valid() && loaded == old(loaded)
      ensures inst == if r in loaded then loaded[r] else null
      ensures Now() == if r in loaded then old(Now())[r := old(Now())[r].Touched(now)] else old(Now())
    {
      if r !in loaded {
        return null;
      }
      inst := loaded[r];
      inst.Touch(now);
      assert forall q :: q in loaded && q != r ==> loaded[q] != inst;
    }

    /** One look over the table, in whatever order it is listed: the memory in
        use, and the least recently used instance that may go. */
    method Scan() returns (used: nat, lru: Instance?)
      requires Valid()
      ensures used == Used(Now())
      ensures lru == null ==> Evictables(keep, Now()) == {}
      ensures lru != null ==> lru.ref in loaded && IsLru(keep, Now(), lru.ref)
    {
      used, lru := 0, null;
      var todo := loaded.Keys;
      ghost var m := Now();
      assert m - m.Keys == map[];
      while todo != {}
        invariant todo <= loaded.Keys
        invariant used == Used(m - todo)
        invariant lru == null ==> forall q :: Evictable(keep, m, q) ==> q in todo
        invariant lru != null ==> lru.ref in loaded && loaded[lru.ref] == lru && Evictable(keep, m, lru.ref)
        invariant lru != null ==>
                    forall q :: Evictable(keep, m, q) && q !in todo ==> lru.lastUsed <= m[q].lastUsed
        decreases todo
      {
        var r :| r in todo;
        var inst := loaded[r];
        assert m - (todo - {r}) == (m - todo)[r := m[r]];
        UsedMore(m - todo, r, m[r]);
        todo := todo - {r};
        used := used + inst.memory;
        var busy := inst.Busy();
        if inst.ref in keep || busy {
          continue;
        }
        if lru == null || inst.lastUsed < lru.lastUsed {
          lru := inst;
        }
      }
      assert m - {} == m;
    }

    /** Unloads idle instances until `need` fits. Run without interference it
        takes the shortest run of least recently used ones that makes room;
        when even all of them do not, it has unloaded every one. */
    method MakeRoom(need: nat) returns (e: Option<LoadError>, ghost gone: set<Ref>)
      requires Valid()
      modifies this`loaded
      ensures Valid() && loaded == old(loaded) - gone && Now() == old(Now()) - gone
      ensures budget <= 0 ==> e.None? && gone == {}
      ensures e == Some(OverBudget) <==> budget > 0 && need > budget
      ensures e == Some(OverBudget) ==> gone == {}
      ensures LruPrefix(keep, old(Now()), gone)
      ensures budget > 0 && e.None? ==>
                Used(Now()) + need <= budget && Needed(old(Now()), gone, need, budget)
      ensures e == Some(Exhausted) ==>
                gone == Evictables(keep, old(Now())) && Used(Now()) + need > budget
      ensures forall r :: r in gone ==> r !in keep && r in old(Now()) && old(Now())[r].active == 0
      ensures e == Some(Exhausted) ==> forall r :: r in Now() ==> r in keep || Now()[r].active > 0
    {
      gone := {};
      ghost var whole, m := loaded, Now();
      assert loaded - gone == loaded && m - gone == m;
      if budget <= 0 {
        return None, gone;
      }
      if need > budget {
        return Some(OverBudget), gone;
      }
      while true
        invariant Valid() && loaded == whole - gone && Now() == m - gone
        invariant LruPrefix(keep, m, gone) && Needed(m, gone, need, budget)
        decreases loaded.Keys
      {
        var used, lru := Scan();
        if used + need <= budget {
          return None, gone;
        }
        if lru == null {
          AllGone(keep, m, gone);
          return Some(Exhausted), gone;
        }
        PrefixGrows(keep, m, gone, lru.ref, need, budget);
        Forget(lru.ref, whole, m, gone);
        gone := gone + {lru.ref};
      }
    }

    method Forget(r: Ref, ghost whole: map<Ref, Instance>, ghost m: Loaded, ghost gone: set<Ref>)
      requires Valid() && r in loaded && loaded == whole - gone && Now() == m - gone
      modifies this`loaded
      ensures Valid() && loaded == whole - (gone + {r}) && Now() == m - (gone + {r})
    {
      assert whole - gone - {r} == whole - (gone + {r});
      ghost var before := Now();
      loaded := loaded - {r};
      assert Now() == before - {r};
      assert m - gone - {r} == m - (gone + {r});
    }

    /** Unloads what has been idle since before the cutoff, and nothing else. */
    method Sweep(cutoff: nat) returns (victims: seq<Instance>)
      requires Valid()
      modifies this`loaded
      ensures Valid()
      ensures loaded == old(loaded) - Stale(keep, old(Now()), cutoff)
      ensures forall r :: r in old(Now()) ==>
                (r in loaded <==> r in keep || old(Now())[r].active > 0 || old(Now())[r].lastUsed >= cutoff)
      ensures forall v :: v in victims <==> exists r :: r in Stale(keep, old(Now()), cutoff) && old(loaded)[r] == v
    {
      victims := [];
      var todo := loaded.Keys;
      ghost var m := Now();
      ghost var stale := Stale(keep, m, cutoff);
      assert loaded - (stale - todo) == loaded;
      while todo != {}
        invariant todo <= old(loaded).Keys
        invariant loaded == old(loaded) - (stale - todo)
        invariant forall v :: v in victims <==> exists r :: r in stale - todo && old(loaded)[r] == v
        decreases todo
      {
        var r :| r in todo;
        var inst := loaded[r];
        var busy := inst.Busy();
        ghost var before := stale - todo;
        todo := todo - {r};
        if r !in keep && !busy && inst.lastUsed < cutoff {
          assert r in stale && stale - todo == before + {r};
          assert old(loaded) - before - {r} == old(loaded) - (before + {r});
          loaded := loaded - {r};
          victims := victims + [inst];
        } else {
          assert stale - todo == before;
        }
      }
    }
  }

  /** Idle and unpinned, and last used before the cutoff. */
  ghost function Stale(keep: set<Ref>, m: Loaded, cutoff: nat): set<Ref> {
    set r | r in m && Evictable(keep, m, r) && m[r].lastUsed < cutoff
  }

  /** Some of the evictable, none of them used later than any left. */
  ghost predicate LruPrefix(keep: set<Ref>, m: Loaded, gone: set<Ref>) {
    && gone <= Evictables(keep, m)
    && forall r, q :: r in gone && q in Evictables(keep, m) - gone ==> m[r].lastUsed <= m[q].lastUsed
  }

  /** Without the last of those gone there was no room yet. */
  ghost predicate Needed(m: Loaded, gone: set<Ref>, need: nat, budget: int) {
    gone == {} ||
    exists last :: IsLatest(m, gone, last) && Used(m - (gone - {last})) + need > budget
  }

  ghost predicate IsLatest(m: Loaded, gone: set<Ref>, last: Ref) {
    last in gone && gone <= m.Keys && forall r :: r in gone ==> m[r].lastUsed <= m[last].lastUsed
  }

  lemma EvictableLeft(keep: set<Ref>, m: Loaded, gone: set<Ref>)
    ensures Evictables(keep, m - gone) == Evictables(keep, m) - gone
  {
  }

  lemma AllGone(keep: set<Ref>, m: Loaded, gone: set<Ref>)
    requires LruPrefix(keep, m, gone) && Evictables(keep, m - gone) == {}
    ensures gone == Evictables(keep, m)
  {
    EvictableLeft(keep, m, gone);
  }

  lemma PrefixGrows(keep: set<Ref>, m: Loaded, gone: set<Ref>, r: Ref, need: nat, budget: int)
    requires LruPrefix(keep, m, gone) && IsLru(keep, m - gone, r)
    requires Used(m - gone) + need > budget
    ensures LruPrefix(keep, m, gone + {r}) && Needed(m, gone + {r}, need, budget)
  {
    EvictableLeft(keep, m, gone);
    assert r in Evictables(keep, m) - gone;
    forall q | q in Evictables(keep, m) - gone
      ensures m[r].lastUsed <= m[q].lastUsed
    {
      assert Evictable(keep, m - gone, q);
    }
    assert gone + {r} - {r} == gone;
    assert IsLatest(m, gone + {r}, r);
  }

  /** A table at which a refusal has unloaded something: whatever the budget, one
      instance serving a request and taking all of it, and an idle one beside
      it. The idle one goes and the load is refused all the same. */
  method RefusedAfterUnloading(budget: int, need: nat, spare: nat)
    returns (e: Option<LoadError>, before: set<Ref>, after: set<Ref>)
    requires 0 < need <= budget
    ensures e == Some(Exhausted) && before == {"busy", "idle"} && after == {"busy"}
  {
    var t := new Table(budget, {});
    var loaded := TwoLoaded(budget, spare);
    t.loaded := loaded;
    before := t.loaded.Keys;
    ghost var m := t.Now();
    assert m == BusyAndIdle(budget, spare);
    ghost var gone;
    e, gone := t.MakeRoom(need);
    BusyStays(budget, spare, gone);
    assert t.Now() == m - gone && Used(t.Now()) >= budget;
    assert e.Some? && e.value.Exhausted? && e == Some(Exhausted);
    after := t.loaded.Keys;
    assert after == before - gone;
  }

  method TwoLoaded(budget: nat, spare: nat) returns (m: map<Ref, Instance>)
    ensures m.Keys == {"busy", "idle"} && forall r :: r in m ==> fresh(m[r]) && m[r].ref == r
    ensures m["busy"].Value() == Inst(budget, 1, 1) && m["idle"].Value() == Inst(spare, 0, 0)
  {
    var busy := new Instance("busy", budget, 0);
    busy.Begin(1);
    var idle := new Instance("idle", spare, 0);
    m := map["busy" := busy, "idle" := idle];
  }

  ghost function BusyAndIdle(budget: nat, spare: nat): Loaded {
    map["busy" := Inst(budget, 1, 1), "idle" := Inst(spare, 0, 0)]
  }

  lemma BusyStays(budget: nat, spare: nat, gone: set<Ref>)
    requires LruPrefix({}, BusyAndIdle(budget, spare), gone)
    ensures Evictables({}, BusyAndIdle(budget, spare)) == {"idle"}
    ensures "busy" !in gone && Used(BusyAndIdle(budget, spare) - gone) >= budget
  {
    var m := BusyAndIdle(budget, spare);
    assert "busy" !in Evictables({}, m);
    UsedLess(m - gone, "busy");
  }
}
