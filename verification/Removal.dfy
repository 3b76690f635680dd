/** Planning a removal: which descriptions go with the one named, in which
    order, and when the removal is refused. */
module Removal {
  import opened Wrappers
  import opened Graph
  import opened Collection

  predicate TaggedDescription(e: Entry) {
    e.Tagged() && e.describes && e.subject.Some?
  }

  /** Closed under: a tagged description goes with its subject. */
  ghost predicate CarriesAlong(es: set<Entry>, going: set<Digest>) {
    forall e :: e in es && TaggedDescription(e) && e.subject.value.digest in going ==> e.desc.digest in going
  }

  ghost predicate InEveryRemoval(es: set<Entry>, root: Digest, g: Digest) {
    forall s: set<Digest> :: root in s && CarriesAlong(es, s) ==> g in s
  }

  /** What goes when the description `root` goes: it, the tagged descriptions
      of it, and theirs in turn. */
  ghost function Going(es: set<Entry>, root: Digest): set<Digest> {
    set g | g in Digests(es) + {root} && InEveryRemoval(es, root, g)
  }

  lemma GoingLeast(es: set<Entry>, root: Digest, s: set<Digest>)
    requires root in s && CarriesAlong(es, s)
    ensures Going(es, root) <= s
  {
  }

  lemma GoingClosed(es: set<Entry>, root: Digest)
    ensures root in Going(es, root) && CarriesAlong(es, Going(es, root))
  {
    forall e | e in es && TaggedDescription(e) && e.subject.value.digest in Going(es, root)
      ensures e.desc.digest in Going(es, root)
    {
      forall s: set<Digest> | root in s && CarriesAlong(es, s)
        ensures e.desc.digest in s
      {
        assert e.subject.value.digest in s;
      }
    }
  }

  ghost function EndOf(root: Digest, chain: seq<Entry>): Digest {
    if chain == [] then root else chain[|chain| - 1].desc.digest
  }

  /** Tagged descriptions, the first of the root and each of the one before. */
  ghost predicate Describes(es: set<Entry>, root: Digest, chain: seq<Entry>) {
    forall i :: 0 <= i < |chain| ==>
      && chain[i] in es && chain[i].ref != "" && chain[i].describes && chain[i].subject.Some?
      && chain[i].subject.value.digest == EndOf(root, chain[..i])
  }

  ghost predicate DescribesTo(es: set<Entry>, root: Digest, chain: seq<Entry>, g: Digest) {
    chain != [] && Describes(es, root, chain) && chain[|chain| - 1].desc.digest == g
  }

  lemma {:induction false} ChainGoes(es: set<Entry>, root: Digest, chain: seq<Entry>, n: nat)
    requires Describes(es, root, chain) && n < |chain|
    ensures chain[n].desc.digest in Going(es, root)
    decreases n
  {
    GoingClosed(es, root);
    var e := chain[n];
    assert TaggedDescription(e);
    if n > 0 {
      ChainGoes(es, root, chain, n - 1);
    }
  }

  lemma DescribesFurther(es: set<Entry>, root: Digest, chain: seq<Entry>, g: Digest, e: Entry)
    requires DescribesTo(es, root, chain, g)
    requires e in es && e.ref != "" && e.describes && e.subject.Some? && e.subject.value.digest == g
    ensures DescribesTo(es, root, chain + [e], e.desc.digest)
  {
    assert forall i :: 0 <= i < |chain| ==> (chain + [e])[..i] == chain[..i];
    assert (chain + [e])[..|chain|] == chain;
  }

  /** Besides the root, exactly what a chain of tagged descriptions starting from
      it ends with goes. */
  lemma GoingIsDescribed(es: set<Entry>, root: Digest, g: Digest)
    ensures g in Going(es, root) <==> g == root || exists chain :: DescribesTo(es, root, chain, g)
  {
    GoingClosed(es, root);
    var s := set x | x in Going(es, root) && (x == root || exists chain :: DescribesTo(es, root, chain, x));
    forall e | e in es && TaggedDescription(e) && e.subject.value.digest in s
      ensures e.desc.digest in s
    {
      var x := e.subject.value.digest;
      if x == root {
        assert DescribesTo(es, root, [e], e.desc.digest);
      } else {
        var chain :| DescribesTo(es, root, chain, x);
        DescribesFurther(es, root, chain, x, e);
      }
    }
    GoingLeast(es, root, s);
    if chain :| DescribesTo(es, root, chain, g) {
      ChainGoes(es, root, chain, |chain| - 1);
    }
  }

  /** A depth lies one past the subject's, for each description going. */
  ghost predicate Layered(es: set<Entry>, root: Digest, depth: map<Digest, nat>) {
    && root in depth && depth[root] == 0
    && (forall g :: g in depth && g != root ==> exists e :: Over(es, depth, e, g))
  }

  ghost predicate Over(es: set<Entry>, depth: map<Digest, nat>, e: Entry, g: Digest) {
    && e in es && TaggedDescription(e) && e.desc.digest == g && g in depth
    && e.subject.value.digest in depth && depth[g] == depth[e.subject.value.digest] + 1
  }

  ghost predicate Placing(es: set<Entry>, root: Digest, depth: map<Digest, nat>) {
    Layered(es, root, depth) && depth.Keys <= Going(es, root)
  }

  lemma PlaceOne(es: set<Entry>, root: Digest, depth: map<Digest, nat>, e: Entry)
    requires Placing(es, root, depth) && e in es && TaggedDescription(e)
    requires e.subject.value.digest in depth && e.desc.digest !in depth
    ensures Placing(es, root, depth[e.desc.digest := depth[e.subject.value.digest] + 1])
  {
    var next := depth[e.desc.digest := depth[e.subject.value.digest] + 1];
    GoingClosed(es, root);
    forall g | g in next && g != root
      ensures exists f :: Over(es, next, f, g)
    {
      if g == e.desc.digest {
        assert Over(es, next, e, g);
      } else {
        var f :| Over(es, depth, f, g);
        assert Over(es, next, f, g);
      }
    }
  }

  /** The growing loop: every digest that goes, with its distance from the
      description removed. */
  method Depths(entries: seq<Entry>, root: Digest) returns (depth: map<Digest, nat>)
    ensures Layered(EntrySet(entries), root, depth) && depth.Keys == Going(EntrySet(entries), root)
  {
    ghost var es := EntrySet(entries);
    depth := map[root := 0];
    GoingClosed(es, root);
    var grew := true;
    while grew
      invariant Placing(es, root, depth)
      invariant !grew ==> CarriesAlong(es, depth.Keys)
      decreases Going(es, root) - depth.Keys, grew
    {
      grew := false;
      ghost var before := depth.Keys;
      for k := 0 to |entries|
        invariant Placing(es, root, depth) && before <= depth.Keys
        invariant grew <==> before != depth.Keys
        invariant !grew ==> CarriesAlong(EntrySet(entries[..k]), depth.Keys)
      {
        var e := entries[k];
        assert EntrySet(entries[..k + 1]) == EntrySet(entries[..k]) + {e};
        if !TaggedDescription(e) || e.subject.value.digest !in depth || e.desc.digest in depth {
          continue;
        }
        PlaceOne(es, root, depth, e);
        depth := depth[e.desc.digest := depth[e.subject.value.digest] + 1];
        grew := true;
      }
      assert entries[..|entries|] == entries;
    }
    GoingLeast(es, root, depth.Keys);
  }

  /** With one manifest per digest, every description going lies just past its
      own subject. */
  lemma PastItsSubject(l: Layout, es: set<Entry>, root: Digest, depth: map<Digest, nat>, e: Entry)
    requires WellFormed(l, es) && Layered(es, root, depth)
    requires e in es && TaggedDescription(e) && e.desc.digest in depth && e.desc.digest != root
    ensures e.subject.value.digest in depth && depth[e.desc.digest] == depth[e.subject.value.digest] + 1
  {
    var f :| Over(es, depth, f, e.desc.digest);
    assert Reads(l, e) && Reads(l, f);
  }

  // ----- deepest first

  function DepthOf(depth: map<Digest, nat>, e: Entry): nat {
    if e.desc.digest in depth then depth[e.desc.digest] else 0
  }

  ghost predicate DeepestFirst(depth: map<Digest, nat>, es: seq<Entry>) {
    forall i, j :: 0 <= i < j < |es| ==> DepthOf(depth, es[i]) >= DepthOf(depth, es[j])
  }

  function Insert(depth: map<Digest, nat>, e: Entry, es: seq<Entry>): seq<Entry> {
    if es == [] || DepthOf(depth, e) >= DepthOf(depth, es[0]) then [e] + es
    else [es[0]] + Insert(depth, e, es[1..])
  }

  /** `slices.SortStableFunc` by descending depth. */
  function SortByDepth(depth: map<Digest, nat>, es: seq<Entry>): seq<Entry> {
    if es == [] then [] else Insert(depth, es[0], SortByDepth(depth, es[1..]))
  }

  lemma {:induction false} InsertKeepsOrder(depth: map<Digest, nat>, e: Entry, es: seq<Entry>)
    requires DeepestFirst(depth, es)
    ensures DeepestFirst(depth, Insert(depth, e, es))
  {
    if es == [] || DepthOf(depth, e) >= DepthOf(depth, es[0]) {
    } else {
      InsertKeepsOrder(depth, e, es[1..]);
      InsertAddsOne(depth, e, es[1..]);
      var rest := Insert(depth, e, es[1..]);
      assert forall i :: 0 <= i < |rest| ==> rest[i] in EntrySet(rest);
    }
  }

  lemma SetOfFirst(es: seq<Entry>)
    requires es != []
    ensures EntrySet(es) == EntrySet(es[1..]) + {es[0]}
  {
  }

  lemma {:induction false} InsertAddsOne(depth: map<Digest, nat>, e: Entry, es: seq<Entry>)
    ensures EntrySet(Insert(depth, e, es)) == EntrySet(es) + {e}
  {
    if es == [] || DepthOf(depth, e) >= DepthOf(depth, es[0]) {
    } else {
      InsertAddsOne(depth, e, es[1..]);
      SetOfFirst(es);
      SetOfFirst(Insert(depth, e, es));
    }
  }

  lemma {:induction false} SortedDeepestFirst(depth: map<Digest, nat>, es: seq<Entry>)
    ensures DeepestFirst(depth, SortByDepth(depth, es))
    ensures EntrySet(SortByDepth(depth, es)) == EntrySet(es)
  {
    if es != [] {
      SortedDeepestFirst(depth, es[1..]);
      InsertKeepsOrder(depth, es[0], SortByDepth(depth, es[1..]));
      InsertAddsOne(depth, es[0], SortByDepth(depth, es[1..]));
      assert EntrySet(es) == EntrySet(es[1..]) + {es[0]};
    }
  }

  // ----- the decision

  /** Only the tag goes, since another names the description; or the removal
      is refused, naming the tagged description held if it is not the one
      asked for; or the description goes, with those along it, in order. */
  datatype Decision = OnlyUntag | Refused(through: string) | Goes(along: seq<Entry>)

  ghost predicate NamedOtherwise(es: set<Entry>, root: Digest, ref: string) {
    exists e :: e in es && e.desc.digest == root && e.Tagged() && e.ref != ref
  }

  /** The entries a removal leaves. */
  ghost function Others(es: set<Entry>, root: Digest): set<Entry> {
    set e | e in es && e.desc.digest !in Going(es, root)
  }

  ghost function Along(es: set<Entry>, root: Digest): set<Entry> {
    set e | e in es && e.desc.digest in Going(es, root) && e.desc.digest != root
  }

  /** Something that would go is kept by what would stay. */
  ghost predicate StillHeld(l: Layout, es: set<Entry>, root: Digest) {
    Going(es, root) * Kept(l, Others(es, root)) != {}
  }

  lemma GoingIsTagged(es: set<Entry>, root: Digest, depth: map<Digest, nat>)
    requires Layered(es, root, depth) && depth.Keys == Going(es, root)
    ensures forall g :: g in Going(es, root) && g != root ==>
                          exists e :: e in Along(es, root) && e.desc.digest == g && e.Tagged()
  {
    forall g | g in Going(es, root) && g != root
      ensures exists e :: e in Along(es, root) && e.desc.digest == g && e.Tagged()
    {
      var e :| Over(es, depth, e, g);
      assert e in Along(es, root);
    }
  }

  method Partition(entries: seq<Entry>, root: Digest, depth: map<Digest, nat>)
    returns (others: seq<Entry>, along: seq<Entry>)
    requires depth.Keys == Going(EntrySet(entries), root)
    ensures EntrySet(others) == Others(EntrySet(entries), root)
    ensures EntrySet(along) == Along(EntrySet(entries), root)
  {
    others, along := [], [];
    for k := 0 to |entries|
      invariant EntrySet(others) == set e | e in entries[..k] && e.desc.digest !in depth
      invariant EntrySet(along) == set e | e in entries[..k] && e.desc.digest in depth && e.desc.digest != root
    {
      var e := entries[k];
      assert forall x :: x in entries[..k + 1] <==> x in entries[..k] || x == e;
      if e.desc.digest !in depth {
        assert EntrySet(others + [e]) == EntrySet(others) + {e};
        others := others + [e];
      } else if e.desc.digest != root {
        assert EntrySet(along + [e]) == EntrySet(along) + {e};
        along := along + [e];
      }
    }
    assert entries[..|entries|] == entries;
  }

  lemma OthersWellFormed(l: Layout, es: set<Entry>, root: Digest)
    requires WellFormed(l, es)
    ensures WellFormed(l, Others(es, root))
  {
  }

  method FirstHeld(along: seq<Entry>, kept: set<Digest>) returns (through: Option<string>)
    ensures through.Some? <==> exists e :: e in along && e.Tagged() && e.desc.digest in kept
  {
    for k := 0 to |along|
      invariant forall i :: 0 <= i < k ==> !(along[i].Tagged() && along[i].desc.digest in kept)
    {
      if along[k].desc.digest in kept && along[k].Tagged() {
        assert along[k] in along;
        return Some(along[k].ref);
      }
    }
    return None;
  }

  /** Only the tag goes if another names the description; the removal is
      refused exactly when something that would go is kept by what stays;
      otherwise all of that goes, deepest first. */
  method Deletable(l: Layout, entries: seq<Entry>, root: Digest, ref: string)
    returns (d: Decision, ghost depth: map<Digest, nat>)
    requires WellFormed(l, EntrySet(entries))
    ensures d.OnlyUntag? <==> NamedOtherwise(EntrySet(entries), root, ref)
    ensures !d.OnlyUntag? ==> (d.Refused? <==> StillHeld(l, EntrySet(entries), root))
    ensures d.Goes? ==>
              && Layered(EntrySet(entries), root, depth) && depth.Keys == Going(EntrySet(entries), root)
              && EntrySet(d.along) == Along(EntrySet(entries), root) && DeepestFirst(depth, d.along)
  {
    ghost var es := EntrySet(entries);
    depth := map[];
    for k := 0 to |entries|
      invariant forall i :: 0 <= i < k ==>
                  !(entries[i].desc.digest == root && entries[i].Tagged() && entries[i].ref != ref)
    {
      var e := entries[k];
      if e.desc.digest == root && e.Tagged() && e.ref != ref {
        assert e in es;
        return OnlyUntag, depth;
      }
    }
    var depths := Depths(entries, root);
    depth := depths;
    var others, along := Partition(entries, root, depths);
    OthersWellFormed(l, es, root);
    var kept, holders := Keeps(l, others);
    SortedDeepestFirst(depths, along);
    GoingIsTagged(es, root, depths);
    GoingClosed(es, root);
    if root in kept {
      assert root in Going(es, root) * Kept(l, Others(es, root));
      return Refused(""), depth;
    }
    var order := SortByDepth(depths, along);
    var through := FirstHeld(order, kept);
    HeldThroughATag(l, es, root, kept);
    assert forall e :: e in order <==> e in Along(es, root) by {
      assert forall e :: e in order <==> e in EntrySet(order);
    }
    if through.Some? {
      return Refused(through.value), depth;
    }
    return Goes(order), depth;
  }

  /** A going digest other than the one asked for has a tagged entry, so
      looking at tags alone misses nothing. */
  lemma HeldThroughATag(l: Layout, es: set<Entry>, root: Digest, kept: set<Digest>)
    requires kept == Kept(l, Others(es, root)) && root !in kept
    requires forall g :: g in Going(es, root) && g != root ==>
                           exists e :: e in Along(es, root) && e.desc.digest == g && e.Tagged()
    ensures StillHeld(l, es, root) <==> exists e :: e in Along(es, root) && e.Tagged() && e.desc.digest in kept
  {
    if StillHeld(l, es, root) {
      var g :| g in Going(es, root) * kept;
      var e :| e in Along(es, root) && e.desc.digest == g && e.Tagged();
    }
    if e :| e in Along(es, root) && e.Tagged() && e.desc.digest in kept {
      assert e.desc.digest in Going(es, root) * kept;
    }
  }

  // ----- what a removal that stops partway leaves

  /** The distinct digests of a list, each where it first appears. */
  function Distinct(es: seq<Entry>): (ds: seq<Digest>)
    ensures forall g :: g in ds <==> g in Digests(EntrySet(es))
    ensures forall i, j :: 0 <= i < j < |ds| ==> ds[i] != ds[j]
  {
    if es == [] then []
    else
      var rest := Distinct(es[..|es| - 1]);
      var last := es[|es| - 1];
      assert EntrySet(es) == EntrySet(es[..|es| - 1]) + {last};
      if last.desc.digest in rest then rest else rest + [last.desc.digest]
  }

  ghost predicate DigestsDeepestFirst(depth: map<Digest, nat>, ds: seq<Digest>) {
    && (forall i :: 0 <= i < |ds| ==> ds[i] in depth)
    && forall i, j :: 0 <= i < j < |ds| ==> depth[ds[i]] >= depth[ds[j]]
  }

  lemma {:induction false} DistinctKeepsOrder(depth: map<Digest, nat>, es: seq<Entry>)
    requires DeepestFirst(depth, es) && Digests(EntrySet(es)) <= depth.Keys
    ensures DigestsDeepestFirst(depth, Distinct(es))
    decreases |es|
  {
    if es != [] {
      var (init, last) := (es[..|es| - 1], es[|es| - 1]);
      assert EntrySet(es) == EntrySet(init) + {last};
      assert Digests(EntrySet(init)) <= Digests(EntrySet(es));
      DistinctKeepsOrder(depth, init);
      var rest := Distinct(init);
      assert last in EntrySet(es) && last.desc.digest in depth;
      forall i | 0 <= i < |rest|
        ensures depth[rest[i]] >= depth[last.desc.digest]
      {
        assert rest[i] in rest;
        var e :| e in EntrySet(init) && e.desc.digest == rest[i];
        var k :| 0 <= k < |init| && init[k] == e;
        assert es[k] == e && es[|es| - 1] == last;
      }
    }
  }

  ghost function SetOf(ds: seq<Digest>): set<Digest> {
    set g | g in ds
  }

  /** The digests a removal had deleted when it stopped. */
  ghost predicate StoppedAt(order: seq<Digest>, root: Digest, done: set<Digest>) {
    || (exists n :: 0 <= n <= |order| && done == SetOf(order[..n]))
    || done == SetOf(order) + {root}
  }

  /** No tagged description is left whose subject the removal deleted. */
  ghost predicate NoneStranded(es: set<Entry>, done: set<Digest>) {
    forall e :: e in es && TaggedDescription(e) ==> e.subject.value.digest !in done || e.desc.digest in done
  }

  /** However far the deletions get, they strand nothing. */
  ghost predicate EveryStopIsClean(es: set<Entry>, root: Digest, order: seq<Digest>) {
    forall done :: StoppedAt(order, root, done) ==> NoneStranded(es, done)
  }

  /** The description asked for does not describe one of those going along with
      it. One that did would close a cycle of manifests each holding the digest
      of the next, which no working hash allows. */
  ghost predicate SubjectElsewhere(es: set<Entry>, root: Digest) {
    forall e :: e in es && TaggedDescription(e) && e.desc.digest == root ==>
      e.subject.value.digest == root || e.subject.value.digest !in Going(es, root)
  }

  lemma StopIsClean(es: set<Entry>, root: Digest, order: seq<Digest>, done: set<Digest>)
    requires EveryStopIsClean(es, root, order) && StoppedAt(order, root, done)
    ensures NoneStranded(es, done)
  {
  }

  /** However far the deletions got, every tagged description whose subject
      went had gone before it. */
  lemma StopsClean(l: Layout, es: set<Entry>, root: Digest, depth: map<Digest, nat>, along: seq<Entry>, done: set<Digest>)
    requires WellFormed(l, es) && Layered(es, root, depth) && depth.Keys == Going(es, root)
    requires EntrySet(along) == Along(es, root) && DeepestFirst(depth, along)
    requires StoppedAt(Distinct(along), root, done)
    requires SubjectElsewhere(es, root)
    ensures NoneStranded(es, done)
  {
    var order := Distinct(along);
    GoingClosed(es, root);
    DistinctKeepsOrder(depth, along);
    assert forall g :: g in order <==> g in Digests(Along(es, root));
    forall e | e in es && TaggedDescription(e) && e.subject.value.digest in done
      ensures e.desc.digest in done
    {
      var s, g := e.subject.value.digest, e.desc.digest;
      assert s in order || s == root;
      assert s in Going(es, root) && g in Going(es, root);
      if g != root {
        PastItsSubject(l, es, root, depth, e);
        assert e in Along(es, root);
        DeeperWentFirst(depth, order, root, done, s, g);
      }
    }
  }

  /** Whatever lies deeper than something deleted was deleted before it. */
  lemma DeeperWentFirst(depth: map<Digest, nat>, order: seq<Digest>, root: Digest, done: set<Digest>, s: Digest, g: Digest)
    requires DigestsDeepestFirst(depth, order) && StoppedAt(order, root, done)
    requires s in done && g in order && s in depth && depth[g] > depth[s]
    ensures g in done
  {
    if n :| 0 <= n <= |order| && done == SetOf(order[..n]) {
      var i :| 0 <= i < n && order[i] == s;
      var j :| 0 <= j < |order| && order[j] == g;
      assert j < i;
      assert order[..n][j] == g;
    }
  }

  lemma PlanTakesWhatGoes(l: Layout, es: set<Entry>, root: Digest, depth: map<Digest, nat>, along: seq<Entry>)
    requires WellFormed(l, es) && Layered(es, root, depth) && depth.Keys == Going(es, root)
    requires EntrySet(along) == Along(es, root)
    ensures SetOf(Distinct(along)) + {root} == Going(es, root)
  {
    GoingIsTagged(es, root, depth);
    GoingClosed(es, root);
    forall g | g in Distinct(along)
      ensures g in Going(es, root)
    {
      assert g in Digests(Along(es, root));
    }
  }

  /** Otherwise stopping just before the last deletion strands the description
      asked for. */
  lemma CycleStrands(es: set<Entry>, root: Digest, order: seq<Digest>)
    requires SetOf(order) == Going(es, root) - {root} && !SubjectElsewhere(es, root)
    ensures StoppedAt(order, root, SetOf(order)) && !NoneStranded(es, SetOf(order))
  {
    assert order[..|order|] == order;
  }

  /** A plan takes exactly what goes. However far it gets it strands no
      description, if and only if the one asked for describes none of those
      going along. */
  lemma PlanIsSafe(l: Layout, es: set<Entry>, root: Digest, depth: map<Digest, nat>, along: seq<Entry>)
    requires WellFormed(l, es) && Layered(es, root, depth) && depth.Keys == Going(es, root)
    requires EntrySet(along) == Along(es, root) && DeepestFirst(depth, along)
    ensures SetOf(Distinct(along)) + {root} == Going(es, root)
    ensures SubjectElsewhere(es, root) <==> EveryStopIsClean(es, root, Distinct(along))
  {
    PlanTakesWhatGoes(l, es, root, depth, along);
    if SubjectElsewhere(es, root) {
      forall done | StoppedAt(Distinct(along), root, done)
        ensures NoneStranded(es, done)
      {
        StopsClean(l, es, root, depth, along, done);
      }
    } else {
      assert root !in Digests(Along(es, root));
      CycleStrands(es, root, Distinct(along));
    }
  }
}
