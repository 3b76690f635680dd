/** The local model store: its index file and blobs, what collection does to
    them in place, and removal of a reference. */
module Store {
  import opened Wrappers
  import opened Graph
  import opened Collection
  import opened Repair
  import opened Index
  import opened Removal

  datatype RemoveError = Held(through: string) | NotFound | InvalidReference | DeleteFailed(digest: Digest)

  /** How the deletion of a manifest goes: it works; it fails with nothing done;
      or it fails on the blob, with the manifest's entries gone already. */
  datatype Deletion = Works | Untouched | Unlists

  class Store {
    var rows: seq<Row>
    var blobs: Layout

    ghost predicate Valid()
      reads this
    {
      Sound(rows)
    }

    constructor (rows: seq<Row>, blobs: Layout)
      ensures this.rows == rows && this.blobs == blobs
    {
      this.rows, this.blobs := rows, blobs;
    }

    /** The entries `readIndex` gives, and the blobs behind them. */
    ghost function Now(): Contents
      reads this
    {
      Contents(blobs, View(blobs, rows))
    }

    lemma NowValid()
      requires Valid()
      ensures Now().Valid()
    {
      ViewWellFormed(blobs, rows);
    }

    // ----- the layout library's operations, as this store relies on them

    /** Deletes a manifest: its entries first, then its blob. */
    method Delete(g: Digest)
      requires Valid()
      modifies this
      ensures Valid() && Now() == Without(old(Now()), {g})
    {
      DropRowsView(blobs, rows, {g});
      DropRowsFrom(rows, {g});
      SoundFrom(rows, DropRows(rows, {g}));
      rows := DropRows(rows, {g});
      blobs := blobs - {g};
    }

    /** A deletion that fails on the blob: the entries have gone, it has not. */
    method Unlist(g: Digest)
      requires Valid()
      modifies this
      ensures Valid() && Now() == Unlisted(old(Now()), {g})
    {
      DropRowsListed(blobs, rows, {g});
      DropRowsFrom(rows, {g});
      SoundFrom(rows, DropRows(rows, {g}));
      rows := DropRows(rows, {g});
    }

    /** Deletes a manifest, or fails to in one way or the other. */
    method TryDelete(g: Digest, deletion: Deletion) returns (ok: bool, ghost half: set<Digest>)
      requires Valid()
      modifies this
      ensures Valid() && (ok <==> deletion.Works?) && half == (if deletion.Unlists? then {g} else {})
      ensures Now() == if ok then Without(old(Now()), {g}) else Unlisted(old(Now()), half)
    {
      ok, half := deletion.Works?, {};
      UnlistedNone(Now());
      match deletion {
        case Works => Delete(g);
        case Untouched =>
        case Unlists =>
          Unlist(g);
          half := {g};
      }
    }

    /** Unlinks a tag; its manifest stays recorded without one. */
    method Untag(ref: string)
      requires Valid()
      modifies this
      ensures Valid() && blobs == old(blobs)
      ensures Now().entries == set e | e in old(Now()).entries :: Untagged(e, ref)
    {
      UntagRowsView(blobs, rows, ref);
      UntagRowsFrom(rows, ref);
      SoundFrom(rows, UntagRows(rows, ref));
      rows := UntagRows(rows, ref);
    }

    /** The collector. It reads over and over a subject it cannot place, so it
        must not be started while an untagged entry names one. */
    method Collect()
      requires Valid() && Unplaced(Now()) == {}
      modifies this
      ensures Valid()
      ensures Now() == Swept(old(Now()))
    {
      var entries := ReadIndex(blobs, rows);
      var tagged := KeepTagged(entries);
      DescsListed(tagged);
      var reachable := SuccessorClosure(blobs, DescsOf(tagged));
      var kept, referrers := WithReferrersOf(blobs, entries, reachable, Descs(Tagged(Now().entries)));
      var gone := blobs.Keys - kept;
      DropRowsView(blobs, rows, gone);
      DropRowsFrom(rows, gone);
      SoundFrom(rows, DropRows(rows, gone));
      rows := DropRows(rows, gone);
      blobs := blobs - gone;
    }

    // ----- what is held

    /** Whether collection keeps a manifest. */
    method IsHeld(d: Descriptor) returns (held: bool)
      requires Valid()
      ensures held <==> d.digest in Kept(blobs, Now().entries)
      ensures Carried(blobs, Now().entries, d.digest) ==> held
    {
      NowValid();
      var entries := ReadIndex(blobs, rows);
      var kept, _ := Keeps(blobs, entries);
      if Carried(blobs, Now().entries, d.digest) {
        CarriedIsKept(blobs, Now().entries, d.digest);
      }
      held := d.digest in kept;
    }

    // ----- collection

    method DropIndexEntriesWithoutBlobs()
      requires Valid()
      modifies this
      ensures Valid() && Now() == Repaired(old(Now()))
    {
      var all := rows;
      ghost var start := Now();
      ghost var done: set<Digest> := {};
      WithoutNone(start);
      for k := 0 to |all|
        invariant Valid() && Now() == Without(start, done)
        invariant done !! start.blobs.Keys
        invariant forall i :: 0 <= i < k ==> all[i].desc.digest in start.blobs || all[i].desc.digest in done
      {
        if Exists(blobs, all[k].desc) {
          continue;
        }
        var g := all[k].desc.digest;
        Delete(g);
        WithoutMore(start, done, g);
        done := done + {g};
      }
      forall e | e in start.entries
        ensures e.desc.digest in start.blobs || e.desc.digest in done
      {
        var k :| 0 <= k < |all| && ReadRows(start.blobs, all)[k] == e;
        ReadRowsAt(start.blobs, all, k);
      }
    }

    method UnlinkAndDelete(e: Entry, ghost start: Contents, ghost done: set<Digest>)
      requires Valid() && Now() == Without(start, done)
      requires TagsUnique(start.entries) && e in start.entries && e.Tagged()
      modifies this
      ensures Valid() && Now() == Without(start, done + {e.desc.digest})
    {
      Untag(e.ref);
      Delete(e.desc.digest);
      UntagThenDelete(start, done, e);
    }

    /** First pass: a tagged description that no tagged artifact carries goes,
        tag and blob. */
    method UnlinkOrphanedTagged()
      requires Valid()
      modifies this
      ensures Valid() && Now() == AfterFirstPass(old(Now()))
    {
      NowValid();
      var entries := ReadIndex(blobs, rows);
      var admitted, _ := Admit(blobs, entries);
      ghost var start := Now();
      ViewTagsUnique(blobs, rows);
      ghost var done: set<Digest> := {};
      WithoutNone(start);
      for k := 0 to |entries|
        invariant Valid() && Now() == Without(start, done)
        invariant done == Digests(OrphanedAmong(entries[..k], admitted))
      {
        var e := entries[k];
        OrphanedStep(entries, k, admitted);
        if !e.Tagged() || !e.describes || e.desc.digest in admitted {
          continue;
        }
        UnlinkAndDelete(e, start, done);
        done := done + {e.desc.digest};
      }
      assert entries[..|entries|] == entries;
      assert Digests(OrphanedAmong(entries, admitted)) == Orphans(start);
    }

    /** Second pass: an untagged entry whose subject the collector cannot
        place goes, or is struck from the index when something keeps it. */
    method DeleteUnreachableUntagged()
      requires Valid()
      modifies this
      ensures Valid() && Now() == AfterSecondPass(old(Now()))
    {
      var entries := ReadIndex(blobs, rows);
      ghost var start := Now();
      var tagged := KeepTagged(entries);
      DescsListed(tagged);
      var reachable := SuccessorClosure(blobs, DescsOf(tagged));
      var kept, _ := WithReferrersOf(blobs, entries, reachable, Descs(Tagged(start.entries)));
      var forget: set<Digest> := {};
      ghost var done: set<Digest> := {};
      WithoutNone(start);
      for k := 0 to |entries|
        invariant Valid() && Now() == Without(start, done)
        invariant done == Digests(UnplacedAmong(entries[..k], reachable)) - kept
        invariant forget == Digests(UnplacedAmong(entries[..k], reachable)) * kept
      {
        var e := entries[k];
        UnplacedStep(entries, k, reachable);
        if e.Tagged() || e.subject.None? || e.subject.value.digest in reachable {
          continue;
        }
        if e.desc.digest in kept {
          forget := forget + {e.desc.digest};
          continue;
        }
        Delete(e.desc.digest);
        WithoutMore(start, done, e.desc.digest);
        done := done + {e.desc.digest};
      }
      assert entries[..|entries|] == entries;
      assert UnplacedAmong(entries, reachable) == Unplaced(start);
      ForgetUntagged(forget);
    }

    method ForgetUntagged(ds: set<Digest>)
      requires Valid()
      modifies this
      ensures Valid() && Now() == Forget(old(Now()), ds)
    {
      ForgetRowsView(blobs, rows, ds);
      ForgetRowsFrom(rows, ds);
      rows := ForgetRows(rows, ds);
    }

    /** Collection end to end: exactly what the passes and the collector leave
        stays, blobs and entries, nothing altered and every row with its blob;
        the tags left are those of the tagged entries that were held. What is
        stored then is what `IsHeld` said beforehand, if whatever those entries
        reach is kept anyway that describe, untagged, a missing blob a tag still
        names. */
    method GC()
      requires Valid()
      modifies this
      ensures Valid()
      ensures Now() == Swept(AfterPasses(Repaired(old(Now()))))
      ensures forall g :: g in old(blobs) ==> (g in blobs <==> Survives(Repaired(old(Now())), g))
      ensures forall g :: g in blobs ==> g in old(blobs) && blobs[g] == old(blobs)[g]
      ensures forall row :: row in rows ==> row.desc.digest in blobs
      ensures Tagged(Now().entries) == Holders(old(blobs), Repaired(old(Now())).entries)
      ensures forall g :: g in old(blobs) && Carried(old(blobs), old(Now()).entries, g) ==> g in blobs
      ensures LostReachKept(old(Now())) ==>
                forall g :: g in old(blobs) ==> (g in blobs <==> g in Kept(old(blobs), old(Now()).entries))
    {
      NowValid();
      ghost var start := Now();
      DropIndexEntriesWithoutBlobs();
      HeldPredicts(Now());
      UnlinkOrphanedTagged();
      DeleteUnreachableUntagged();
      Collect();
      RowsStored(start);
      TagsLeft(start);
      CarriedSurvives(start);
      if LostReachKept(start) {
        HeldPredictsCollection(start);
      }
    }

    /** A row is there for each entry, so each has its blob when those have. */
    lemma RowsStored(start: Contents)
      requires Now() == Swept(AfterPasses(Repaired(start)))
      ensures forall row :: row in rows ==> row.desc.digest in blobs
    {
      forall row | row in rows
        ensures row.desc.digest in blobs
      {
        var k :| 0 <= k < |rows| && rows[k] == row;
        ReadRowsAt(blobs, rows, k);
        assert ReadRows(blobs, rows)[k] in Now().entries;
      }
    }

    // ----- removal

    /** The descriptor a reference resolves to, by tag or by digest. */
    method Resolve(entries: seq<Entry>, ref: string) returns (e: Option<Entry>)
      ensures e.Some? ==> e.value in entries
      ensures e.Some? && e.value.ref != ref ==>
                e.value.desc.digest == ref && forall x :: x in entries ==> x.ref != ref
      ensures e.None? ==> forall x :: x in entries ==> x.ref != ref && x.desc.digest != ref
    {
      var byDigest: Option<Entry> := None;
      for k := 0 to |entries|
        invariant byDigest.Some? ==> byDigest.value in entries && byDigest.value.desc.digest == ref
        invariant byDigest.None? ==> forall i :: 0 <= i < k ==> entries[i].desc.digest != ref
        invariant forall i :: 0 <= i < k ==> entries[i].ref != ref
      {
        if entries[k].ref == ref {
          return Some(entries[k]);
        }
        if entries[k].desc.digest == ref {
          byDigest := Some(entries[k]);
        }
      }
      return byDigest;
    }

    /** Deletes manifests in order until one deletion fails. */
    method DeleteInOrder(order: seq<Digest>, along: seq<Entry>, deletion: Digest -> Deletion)
      returns (failed: Option<Digest>, refs: seq<string>, ghost n: nat, ghost half: set<Digest>)
      requires Valid() && forall i, j :: 0 <= i < j < |order| ==> order[i] != order[j]
      modifies this
      ensures Valid() && n <= |order| && Now() == Unlisted(Without(old(Now()), SetOf(order[..n])), half)
      ensures failed.None? ==> n == |order|
      ensures failed.Some? ==> failed.value in order
      ensures half !! SetOf(order[..n]) && forall g :: g in SetOf(order[..n]) ==> deletion(g).Works?
      ensures FailedAt(deletion, failed, half)
      ensures forall x :: x in refs <==> exists e :: NamesGone(along, e, x, SetOf(order[..n]))
    {
      refs, n, half := [], 0, {};
      ghost var start := Now();
      WithoutNone(start);
      for k := 0 to |order|
        invariant forall g :: g in order[..k] ==> deletion(g).Works?
        invariant Valid() && n == k && half == {} && Now() == Without(start, SetOf(order[..k]))
        invariant forall x :: x in refs <==> exists e :: NamesGone(along, e, x, SetOf(order[..k]))
      {
        var ok;
        ok, half := TryDelete(order[k], deletion(order[k]));
        if !ok {
          return Some(order[k]), refs, n, half;
        }
        half := {};
        WithoutMore(start, SetOf(order[..k]), order[k]);
        assert SetOf(order[..k + 1]) == SetOf(order[..k]) + {order[k]};
        MoreRefs(along, refs, SetOf(order[..k]), order[k]);
        refs, n := refs + RefsOf(along, order[k]), n + 1;
      }
      UnlistedNone(Now());
      return None, refs, n, half;
    }

    /** Whether a reference names a description that is to be deleted, and
        what goes with it. */
    method Plan(entries: seq<Entry>, target: Entry, ref: string)
      returns (d: Decision)
      requires Valid() && entries == ReadRows(blobs, rows) && target in entries
      ensures Decided(Now(), target, ref, d)
    {
      NowValid();
      var head := ReadHead(blobs, target.desc);
      assert Reads(blobs, target);
      if head.None? || !head.value.describes {
        return OnlyUntag;
      }
      ghost var depth;
      d, depth := Deletable(blobs, entries, target.desc.digest, ref);
      if d.Goes? {
        PlanIsSafe(blobs, Now().entries, target.desc.digest, depth, d.along);
      }
    }

    /** What is decided before anything changes: the entry a reference names,
        if any, and what removing it does. */
    method Decide(ref: string) returns (target: Option<Entry>, d: Decision)
      requires Valid() && ref != ""
      ensures target.None? ==> d.OnlyUntag? && forall e :: !Resolves(Now().entries, ref, e)
      ensures target.Some? ==> Resolves(Now().entries, ref, target.value) && TagsUnique(Now().entries)
      ensures target.Some? ==> Decided(Now(), target.value, ref, d)
    {
      var entries := ReadIndex(blobs, rows);
      target := Resolve(entries, ref);
      d := OnlyUntag;
      ViewTagsUnique(blobs, rows);
      assert forall e :: e in Now().entries <==> e in entries;
      if target.Some? {
        d := Plan(entries, target.value, ref);
      }
    }

    /** The deletions before the reference itself goes. */
    method DeleteAlong(along: seq<Entry>, ghost root: Digest, deletion: Digest -> Deletion)
      returns (failed: Option<Digest>, refs: seq<string>, ghost done: set<Digest>, ghost half: set<Digest>)
      requires Valid()
      requires along == [] || (SafePlan(blobs, Now().entries, root, Distinct(along))
                               && EntrySet(along) == Along(Now().entries, root))
      modifies this
      ensures Valid() && Now() == Unlisted(Without(old(Now()), done), half)
      ensures done == {} || (along != [] && Safe(old(blobs), old(Now()).entries, root, done))
      ensures Reported(old(Now()).entries, refs, done - {root}) && root !in done
      ensures failed.None? ==> done == SetOf(Distinct(along))
      ensures FailedAt(deletion, failed, half) && half !! done && forall g :: g in done ==> deletion(g).Works?
    {
      var order := Distinct(along);
      ghost var es := Now().entries;
      ghost var n;
      failed, refs, n, half := DeleteInOrder(order, along, deletion);
      done := SetOf(order[..n]);
      assert done - {root} == done by {
        assert forall g :: g in done ==> g in Digests(EntrySet(along));
      }
      RefsAreTags(es, along, root, refs, done);
      assert n == |order| ==> order[..n] == order;
      if along != [] {
        assert StoppedAt(order, root, done);
        SafeWhileGoing(old(blobs), es, root, order, done);
      }
    }

    /** Carries a decision out: what goes along, the tag, the description. */
    method CarryOut(target: Entry, d: Decision, ref: string, deletion: Digest -> Deletion)
      returns (r: Result<(), RemoveError>, refs: seq<string>, ghost done: set<Digest>, ghost half: set<Digest>)
      requires Valid() && ref != "" && !d.Refused? && target in Now().entries && TagsUnique(Now().entries)
      requires Decided(Now(), target, ref, d)
      modifies this
      ensures Valid() && blobs == old(blobs) - done
      ensures var left := Unlisted(Without(old(Now()), done), half).entries;
              Now().entries == left || Now().entries == set e | e in left :: Untagged(e, ref)
      ensures FailedAt(deletion, if r.Err? && r.error.DeleteFailed? then Some(r.error.digest) else None, half)
      ensures half !! done && forall g :: g in done ==> deletion(g).Works?
      ensures r.Err? && !r.error.DeleteFailed? ==> r.error.InvalidReference? && target.ref != ref
      ensures r.Err? && r.error.InvalidReference? ==>
                done == if d.Goes? then Going(old(Now()).entries, target.desc.digest) - {target.desc.digest} else {}
      ensures done != {} ==> d.Goes? && Safe(old(blobs), old(Now()).entries, target.desc.digest, done)
      ensures Reported(old(Now()).entries, refs, done - {target.desc.digest})
      ensures r.Ok? ==> target.ref == ref && (forall e :: e in Now().entries ==> e.ref != ref)
                        && done == if d.Goes? then Going(old(Now()).entries, target.desc.digest) else {}
    {
      ghost var start := Now();
      var g := target.desc.digest;
      var along := if d.Goes? then d.along else [];
      var failed;
      failed, refs, done, half := DeleteAlong(along, g, deletion);
      if failed.Some? {
        return Err(DeleteFailed(failed.value)), refs, done, half;
      }
      UnlistedNone(Without(start, done));
      if target.ref != ref {
        if d.Goes? {
          AlongIsTheRest(start.entries, g, d.along);
        }
        return Err(InvalidReference), refs, done, half;
      }
      Untag(ref);
      UntaggedGone(Without(start, done).entries, ref);
      if !d.Goes? {
        return Ok(()), refs, done, half;
      }
      var ok;
      ok, half := TryDelete(g, deletion(g));
      if !ok {
        UnlistUntagged(Without(start, done), ref, half);
        return Err(DeleteFailed(g)), refs, done, half;
      }
      half := {};
      TargetGone(start, done, target, Distinct(along));
      done := done + {g};
      UnlistedNone(Without(start, done));
      return Ok(()), refs, done, half;
    }

    /** Removes a reference. Every deletion may fail, as `deletion` decides. What
        had been deleted when it returned is `done`: some first part of the
        plan, deepest description first, that strands no description and takes
        nothing the rest keeps; `half` is what had lost its entries only. A
        reference held or not found changes nothing. A digest is no tag to
        remove, and is refused, but only after what goes along with it has
        gone. */
    method RemoveReporting(ref: string, deletion: Digest -> Deletion)
      returns (r: Result<(), RemoveError>, refs: seq<string>, ghost done: set<Digest>, ghost half: set<Digest>, ghost root: Digest)
      requires Valid() && ref != ""
      modifies this
      ensures Valid() && blobs == old(blobs) - done
      ensures var left := Unlisted(Without(old(Now()), done), half).entries;
              Now().entries == left || Now().entries == set e | e in left :: Untagged(e, ref)
      ensures r == Err(NotFound) <==> forall e :: !Resolves(old(Now()).entries, ref, e)
      ensures r.Err? && (r.error.Held? || r.error.NotFound?) ==> done == {} && Now() == old(Now())
      ensures forall e :: Resolves(old(Now()).entries, ref, e) ==> root == e.desc.digest && Outcome(old(Now()), e, ref, r, done)
      ensures FailedAt(deletion, if r.Err? && r.error.DeleteFailed? then Some(r.error.digest) else None, half)
      ensures half !! done && forall g :: g in done ==> deletion(g).Works?
      ensures done != {} ==> Safe(old(blobs), old(Now()).entries, root, done)
      ensures Reported(old(Now()).entries, refs, done - {root})
      ensures r.Ok? ==> forall e :: e in Now().entries ==> e.ref != ref
      ensures forall g :: g in old(blobs) && Carried(old(blobs), old(Now()).entries, g) ==> g in blobs
    {
      done, half, refs, root := {}, {}, [], "";
      WithoutNone(Now());
      UnlistedNone(Now());
      ghost var start := Now();
      NowValid();
      var target, d := Decide(ref);
      if target.None? {
        return Err(NotFound), refs, done, half, root;
      }
      root := target.value.desc.digest;
      if d.Refused? {
        r := Err(Held(d.through));
      } else {
        r, refs, done, half := CarryOut(target.value, d, ref, deletion);
      }
      OutcomeFor(start, target.value, ref, r, done, d);
      Comes(start, target.value, ref, r, done);
    }
  }

  // ----- what a tagged artifact leads to stays

  /** Collection takes nothing a tagged artifact leads to. */
  lemma CarriedSurvives(c: Contents)
    requires c.Valid()
    ensures forall g :: g in c.blobs && Carried(c.blobs, c.entries, g) ==> Survives(Repaired(c), g)
  {
    RepairedValid(c);
    HeldPredicts(Repaired(c));
    forall g | g in c.blobs && Carried(c.blobs, c.entries, g)
      ensures Survives(Repaired(c), g)
    {
      CarriedAfterRepair(c, g);
      CarriedIsKept(c.blobs, Repaired(c).entries, g);
    }
  }

  lemma LedToStored(l: Layout, d: Descriptor, g: Digest)
    requires LedTo(l, {d}, g) && g in l
    ensures Exists(l, d)
  {
    var path, x :| Leads(l, path, d, x) && x.digest == g;
    if |path| > 1 {
      assert Refers(l, path[0], path[0 + 1]);
    }
  }

  lemma CarriedAfterRepair(c: Contents, g: Digest)
    requires g in c.blobs && Carried(c.blobs, c.entries, g)
    ensures Carried(c.blobs, Repaired(c).entries, g)
  {
    var e :| CarriedBy(c.blobs, c.entries, e, g);
    LedToStored(c.blobs, e.desc, g);
    assert CarriedBy(c.blobs, Repaired(c).entries, e, g);
  }

  /** Removal takes nothing one leads to: what goes are descriptions, and none that
      what stays keeps. */
  lemma CarriedStays(c: Contents, target: Entry, done: set<Digest>)
    requires c.Valid() && target in c.entries && (done != {} ==> target.describes)
    requires done != {} ==> Safe(c.blobs, c.entries, target.desc.digest, done)
    ensures forall g :: Carried(c.blobs, c.entries, g) ==> g !in done
  {
    var root := target.desc.digest;
    forall g | Carried(c.blobs, c.entries, g) && done != {}
      ensures g !in done
    {
      var e :| CarriedBy(c.blobs, c.entries, e, g);
      ArtifactsStay(c, target, e);
      assert CarriedBy(c.blobs, Others(c.entries, root), e, g);
      OthersWellFormed(c.blobs, c.entries, root);
      CarriedIsKept(c.blobs, Others(c.entries, root), g);
    }
  }

  /** What holds of the entry resolved holds of any that may have been. */
  lemma Comes(c: Contents, e: Entry, ref: string, r: Result<(), RemoveError>, done: set<Digest>)
    requires c.Valid() && TagsUnique(c.entries) && Resolves(c.entries, ref, e) && ref != "" && Outcome(c, e, ref, r, done)
    requires done != {} ==> e.describes && Safe(c.blobs, c.entries, e.desc.digest, done)
    ensures forall x :: Resolves(c.entries, ref, x) ==> x.desc.digest == e.desc.digest && Outcome(c, x, ref, r, done)
    ensures forall g :: Carried(c.blobs, c.entries, g) ==> g !in done
  {
    ResolvesOne(c, e, ref, r, done);
    CarriedStays(c, e, done);
  }

  lemma ArtifactsStay(c: Contents, target: Entry, e: Entry)
    requires c.Valid() && target in c.entries && target.describes && e in c.entries && !e.describes
    ensures e in Others(c.entries, target.desc.digest)
  {
    var s := set f | f in c.entries && f.describes :: f.desc.digest;
    GoingLeast(c.entries, target.desc.digest, s);
    assert forall f :: f in c.entries && f.desc == e.desc ==> Reads(c.blobs, f) && f.describes == e.describes;
  }

  /** The tags collection leaves are those of the tagged entries it held. */
  lemma TagsLeft(start: Contents)
    requires start.Valid()
    ensures Tagged(Swept(AfterPasses(Repaired(start))).entries) == Holders(start.blobs, Repaired(start).entries)
  {
    var c := Repaired(start);
    var after := AfterPasses(c);
    RepairedValid(start);
    FirstPassTagged(c);
    WithoutValid(c, Orphans(c));
    SecondPassTagged(AfterFirstPass(c));
    TaggedSwept(after);
  }

  /** The collector takes no tagged entry whose blob is there. */
  lemma TaggedSwept(c: Contents)
    requires forall e :: e in c.entries && e.Tagged() ==> Exists(c.blobs, e.desc)
    ensures Tagged(Swept(c).entries) == Tagged(c.entries)
  {
    var roots := Descs(Tagged(c.entries));
    forall e | e in Tagged(c.entries)
      ensures e.desc.digest in CollectorKeeps(c)
    {
      RootReached(c.blobs, roots + Descs(UntaggedOn(c.entries, Reach(c.blobs, roots))), e.desc);
    }
  }

  // ----- what a removal comes to

  /** Entries gone, blobs where they were. */
  ghost function Unlisted(c: Contents, gone: set<Digest>): Contents {
    c.(entries := set e | e in c.entries && e.desc.digest !in gone)
  }

  lemma UnlistedNone(c: Contents)
    ensures Unlisted(c, {}) == c
  {
  }

  lemma UnlistUntagged(c: Contents, ref: string, half: set<Digest>)
    ensures (set e | e in (set x | x in c.entries :: Untagged(x, ref)) && e.desc.digest !in half)
            == set x | x in Unlisted(c, half).entries :: Untagged(x, ref)
  {
    var untagged := set x | x in c.entries :: Untagged(x, ref);
    forall x | x in Unlisted(c, half).entries
      ensures Untagged(x, ref) in untagged && Untagged(x, ref).desc.digest !in half
    {
    }
    forall e | e in untagged && e.desc.digest !in half
      ensures e in set x | x in Unlisted(c, half).entries :: Untagged(x, ref)
    {
      var x :| x in c.entries && Untagged(x, ref) == e;
      assert x in Unlisted(c, half).entries;
    }
  }

  /** The manifest whose deletion failed, if one did, and what of it went. */
  ghost predicate FailedAt(deletion: Digest -> Deletion, failed: Option<Digest>, half: set<Digest>) {
    match failed
    case None => half == {}
    case Some(g) => !deletion(g).Works? && half == if deletion(g).Unlists? then {g} else {}
  }

  /** The report names every tag that has left the index with its entry, but the
      one asked for, if and only if no deletion failed with entries of such a
      tag gone already. */
  lemma ReportIsWholeWhen(es: set<Entry>, refs: seq<string>, done: set<Digest>, half: set<Digest>, root: Digest)
    requires Reported(es, refs, done - {root}) && TagsUnique(es) && half !! done
    ensures (forall e :: e in es && e.Tagged() && e.desc.digest != root && e.desc.digest in done + half ==> e.ref in refs)
            <==> forall e :: e in es && e.Tagged() && e.desc.digest != root ==> e.desc.digest !in half
  {
    forall e | e in es && e.Tagged() && e.desc.digest != root && e.desc.digest in half
      ensures e.ref !in refs
    {
      assert forall x :: x in es && x.Tagged() && x.ref == e.ref ==> x == e;
    }
  }

  /** The entry a reference names: the one it tags, or one of its digest when
      it is no tag. */
  ghost predicate Resolves(es: set<Entry>, ref: string, e: Entry) {
    e in es && (e.ref == ref || (e.desc.digest == ref && forall x :: x in es ==> x.ref != ref))
  }

  /** Content goes only with a description no other tag names. */
  ghost predicate TakesContent(c: Contents, e: Entry, ref: string) {
    e.describes && !NamedOtherwise(c.entries, e.desc.digest, ref)
  }

  /** A tagged description has the digest as its subject, and is not it. */
  ghost predicate Described(es: set<Entry>, root: Digest) {
    exists e :: e in es && TaggedDescription(e) && e.subject.value.digest == root && e.desc.digest != root
  }

  ghost predicate Decided(c: Contents, target: Entry, ref: string, d: Decision) {
    var root := target.desc.digest;
    && (d.OnlyUntag? <==> !TakesContent(c, target, ref))
    && (!d.OnlyUntag? ==> (d.Refused? <==> StillHeld(c.blobs, c.entries, root)))
    && (d.Goes? ==> SafePlan(c.blobs, c.entries, root, Distinct(d.along)) && EntrySet(d.along) == Along(c.entries, root))
  }

  /** How a removal that resolves to e ends. It is held exactly when it would
      take something the rest keeps. It is refused as no tag only when it was
      resolved by digest, and all that goes along with it has gone by then. On
      success all that goes has gone. */
  ghost predicate Outcome(c: Contents, e: Entry, ref: string, r: Result<(), RemoveError>, done: set<Digest>) {
    var root := e.desc.digest;
    && (r.Err? && r.error.Held? <==> TakesContent(c, e, ref) && StillHeld(c.blobs, c.entries, root))
    && (r.Err? && r.error.InvalidReference? ==>
          e.ref != ref && done == if TakesContent(c, e, ref) then Going(c.entries, root) - {root} else {})
    && (r.Ok? ==> e.ref == ref && done == if TakesContent(c, e, ref) then Going(c.entries, root) else {})
  }

  lemma GoesAlong(es: set<Entry>, root: Digest)
    ensures Going(es, root) != {root} <==> Described(es, root)
  {
    GoingClosed(es, root);
    if !Described(es, root) {
      GoingLeast(es, root, {root});
    }
  }

  lemma AlongIsTheRest(es: set<Entry>, root: Digest, along: seq<Entry>)
    requires SetOf(Distinct(along)) + {root} == Going(es, root) && EntrySet(along) == Along(es, root)
    ensures SetOf(Distinct(along)) == Going(es, root) - {root}
  {
    assert forall g :: g in Distinct(along) ==> g in Digests(Along(es, root));
  }

  lemma OutcomeFor(c: Contents, e: Entry, ref: string, r: Result<(), RemoveError>, done: set<Digest>, d: Decision)
    requires Decided(c, e, ref, d)
    requires if d.Refused? then r.Err? && r.error.Held? && done == {}
             else if r.Ok? then e.ref == ref && done == if d.Goes? then Going(c.entries, e.desc.digest) else {}
             else r.error.DeleteFailed?
                  || (r.error.InvalidReference? && e.ref != ref
                      && done == if d.Goes? then Going(c.entries, e.desc.digest) - {e.desc.digest} else {})
    ensures Outcome(c, e, ref, r, done)
  {
  }

  /** A refusal of a digest changes nothing if and only if it takes no content,
      or no other tagged description has the digest as its subject. */
  lemma DigestRefusalChangesNothingWhen(
    c: Contents, e: Entry, ref: string, r: Result<(), RemoveError>, done: set<Digest>)
    requires Outcome(c, e, ref, r, done) && r == Err(InvalidReference)
    ensures done == {} <==> !TakesContent(c, e, ref) || !Described(c.entries, e.desc.digest)
  {
    GoesAlong(c.entries, e.desc.digest);
    GoingClosed(c.entries, e.desc.digest);
  }

  /** Whichever entry a digest is resolved by, the outcome is the same. */
  lemma ResolvesOne(c: Contents, e: Entry, ref: string, r: Result<(), RemoveError>, done: set<Digest>)
    requires c.Valid() && TagsUnique(c.entries) && Resolves(c.entries, ref, e) && ref != "" && Outcome(c, e, ref, r, done)
    ensures forall x :: Resolves(c.entries, ref, x) ==> x.desc.digest == e.desc.digest && Outcome(c, x, ref, r, done)
  {
    forall x | Resolves(c.entries, ref, x)
      ensures x.desc.digest == e.desc.digest && Outcome(c, x, ref, r, done)
    {
      if x.ref == ref {
        assert x == e;
      } else {
        assert x.desc == e.desc && Reads(c.blobs, x) && Reads(c.blobs, e);
      }
    }
  }

  /** A tag that need not be refused is removed when no deletion fails. */
  lemma TagsAreRemoved(c: Contents, e: Entry, ref: string, deletion: Digest -> Deletion,
                       r: Result<(), RemoveError>, done: set<Digest>, half: set<Digest>)
    requires e in c.entries && e.ref == ref && !(TakesContent(c, e, ref) && StillHeld(c.blobs, c.entries, e.desc.digest))
    requires Outcome(c, e, ref, r, done) && (r == Err(NotFound) <==> forall x :: !Resolves(c.entries, ref, x))
    requires FailedAt(deletion, if r.Err? && r.error.DeleteFailed? then Some(r.error.digest) else None, half)
    requires forall g :: deletion(g).Works?
    ensures r.Ok?
  {
    assert Resolves(c.entries, ref, e);
  }

  // ----- a refusal that changes something

  const ATTESTED := Descriptor(ImageManifest, "signature", 1)

  const ATTESTATION := Descriptor(ImageManifest, "attestation", 1)

  const MODEL := Descriptor(Plain("application/octet-stream"), "model", 1)

  /** An untagged signature, and a tagged attestation over it. */
  ghost function AttestedSignature(): Contents {
    Contents(
      map["signature" := Blob(1, true, Some(Manifest(BUNDLE_PREFIX, None, [], Some(MODEL)))),
          "attestation" := Blob(1, true, Some(Manifest(BUNDLE_PREFIX, None, [], Some(ATTESTED))))],
      {Entry(ATTESTED, "", Some(MODEL), true), Entry(ATTESTATION, "att", Some(ATTESTED), true)})
  }

  lemma EmptyKeepsNothing(l: Layout)
    ensures Kept(l, {}) == {}
  {
    NodesLeast(l, {}, {});
    assert Holders(l, {}) == {} && Descs({}) == {};
    assert UntaggedOn({}, Reach(l, {})) == {};
  }

  const ATTESTED_ROWS := [Row(ATTESTED, ""), Row(ATTESTATION, "att")]

  lemma AttestedRows()
    ensures Sound(ATTESTED_ROWS)
    ensures View(AttestedSignature().blobs, ATTESTED_ROWS) == AttestedSignature().entries
  {
    var l := AttestedSignature().blobs;
    assert DescribesOnly(BUNDLE_PREFIX);
    var last := [Row(ATTESTATION, "att")];
    assert ATTESTED_ROWS == [Row(ATTESTED, "")] + last;
    assert last == [Row(ATTESTATION, "att")] + [];
    ViewCons(l, Row(ATTESTED, ""), last);
    ViewCons(l, Row(ATTESTATION, "att"), []);
    assert View(l, []) == {};
  }

  lemma SignatureTakesAlong(e: Entry)
    requires e == Entry(ATTESTED, "", Some(MODEL), true)
    ensures var es := AttestedSignature().entries;
            && Resolves(es, "signature", e) && TakesContent(AttestedSignature(), e, "signature")
            && !StillHeld(AttestedSignature().blobs, es, "signature") && Going(es, "signature") == {"signature", "attestation"}
  {
    var c := AttestedSignature();
    var att := Entry(ATTESTATION, "att", Some(ATTESTED), true);
    assert att in c.entries && TaggedDescription(att);
    GoingClosed(c.entries, "signature");
    GoingLeast(c.entries, "signature", {"signature", "attestation"});
    assert Others(c.entries, "signature") == {};
    EmptyKeepsNothing(c.blobs);
  }

  method NewAttested() returns (s: Store)
    ensures fresh(s) && s.Valid() && s.Now() == AttestedSignature()
  {
    s := new Store(ATTESTED_ROWS, map[
      "signature" := Blob(1, true, Some(Manifest(BUNDLE_PREFIX, None, [], Some(MODEL)))),
      "attestation" := Blob(1, true, Some(Manifest(BUNDLE_PREFIX, None, [], Some(ATTESTED))))]);
    AttestedRows();
  }

  /** Asked for by digest, that signature is refused, and the attestation is
      gone all the same. */
  method RefusedDigest() returns (r: Result<(), RemoveError>, before: Layout, after: Layout)
    ensures r == Err(InvalidReference) && "attestation" in before && after == before - {"attestation"}
  {
    var s := NewAttested();
    before := s.blobs;
    var refs;
    ghost var done, half, root;
    SignatureTakesAlong(Entry(ATTESTED, "", Some(MODEL), true));
    r, refs, done, half, root := s.RemoveReporting("signature", _ => Works);
    assert done == {"attestation"};
    after := s.blobs;
  }

  /** Its deletion failing on the blob, the attestation's tag leaves the index and
      is not reported. */
  method UnreportedTag() returns (r: Result<(), RemoveError>, refs: seq<string>, ghost before: Contents, ghost after: Contents)
    ensures r == Err(DeleteFailed("attestation")) && refs == []
    ensures before == AttestedSignature() && after.blobs == before.blobs
    ensures forall e :: e in after.entries ==> e.ref != "att"
  {
    var s := NewAttested();
    before := s.Now();
    ghost var done, half, root;
    SignatureTakesAlong(Entry(ATTESTED, "", Some(MODEL), true));
    r, refs, done, half, root := s.RemoveReporting("signature", g => if g == "attestation" then Unlists else Works);
    StoppedAtAttestation(r, refs, done, half);
    after := s.Now();
    NoAttestationLeft(after.entries);
  }

  lemma NoAttestationLeft(es: set<Entry>)
    requires var left := Unlisted(Without(AttestedSignature(), {}), {"attestation"}).entries;
             es == left || es == set e | e in left :: Untagged(e, "signature")
    ensures forall e :: e in es ==> e.ref != "att"
  {
    var left := Unlisted(Without(AttestedSignature(), {}), {"attestation"}).entries;
    assert forall e :: e in left ==> e.ref == "";
  }

  lemma StoppedAtAttestation(r: Result<(), RemoveError>, refs: seq<string>, done: set<Digest>, half: set<Digest>)
    requires Outcome(AttestedSignature(), Entry(ATTESTED, "", Some(MODEL), true), "signature", r, done)
    requires r != Err(NotFound) && "attestation" !in done
    requires r.Err? && r.error.DeleteFailed? ==> r.error.digest == "attestation" && half == {"attestation"}
    requires done != {} ==> Safe(AttestedSignature().blobs, AttestedSignature().entries, "signature", done)
    requires Reported(AttestedSignature().entries, refs, done - {"signature"})
    ensures r == Err(DeleteFailed("attestation")) && refs == [] && done == {}
  {
    var es := AttestedSignature().entries;
    SignatureTakesAlong(Entry(ATTESTED, "", Some(MODEL), true));
    var att := Entry(ATTESTATION, "att", Some(ATTESTED), true);
    assert att in es && TaggedDescription(att);
    assert SubjectElsewhere(es, "signature");
    assert done - {"signature"} == {};
    Inhabited(refs);
  }

  lemma Inhabited(refs: seq<string>)
    ensures refs != [] ==> exists x :: x in refs
  {
    if refs != [] {
      assert refs[0] in refs;
    }
  }

  /** Exactly the tags of the entries gone. */
  ghost predicate Reported(es: set<Entry>, refs: seq<string>, gone: set<Digest>) {
    forall x :: x in refs <==> exists e :: e in es && e.Tagged() && e.ref == x && e.desc.digest in gone
  }

  lemma SafeWhileGoing(l: Layout, es: set<Entry>, root: Digest, order: seq<Digest>, done: set<Digest>)
    requires SafePlan(l, es, root, order) && StoppedAt(order, root, done) && done <= SetOf(order)
    ensures Safe(l, es, root, done)
  {
    NothingKept(done, Going(es, root), Kept(l, Others(es, root)));
    if SubjectElsewhere(es, root) {
      StopIsClean(es, root, order, done);
    }
  }

  lemma NothingKept(done: set<Digest>, going: set<Digest>, kept: set<Digest>)
    requires done <= going && going * kept == {}
    ensures done !! kept
  {
    assert forall g :: g in done && g in kept ==> g in going * kept;
  }

  lemma SafeWhenDone(l: Layout, es: set<Entry>, root: Digest, order: seq<Digest>)
    requires SafePlan(l, es, root, order)
    ensures Safe(l, es, root, SetOf(order) + {root}) && SetOf(order) + {root} == Going(es, root)
  {
    NothingKept(SetOf(order) + {root}, Going(es, root), Kept(l, Others(es, root)));
    if SubjectElsewhere(es, root) {
      StopIsClean(es, root, order, SetOf(order) + {root});
    }
  }

  /** With the description itself gone too, all that was to go has gone. */
  lemma TargetGone(c: Contents, done: set<Digest>, e: Entry, order: seq<Digest>)
    requires TagsUnique(c.entries) && e in c.entries && e.Tagged()
    requires SafePlan(c.blobs, c.entries, e.desc.digest, order) && done == SetOf(order)
    ensures var g := e.desc.digest;
            var untagged := Contents(c.blobs - done, set x | x in Without(c, done).entries :: Untagged(x, e.ref));
            && Without(untagged, {g}) == Without(c, done + {g})
            && (forall x :: x in Without(c, done + {g}).entries ==> x.ref != e.ref)
            && Safe(c.blobs, c.entries, g, done + {g}) && done + {g} == Going(c.entries, g)
            && (done + {g}) - {g} == done - {g}
  {
    UntagThenDelete(c, done, e);
    RefGone(c, done, e);
    SafeWhenDone(c.blobs, c.entries, e.desc.digest, order);
  }

  lemma RefGone(c: Contents, done: set<Digest>, e: Entry)
    requires TagsUnique(c.entries) && e in c.entries && e.Tagged()
    ensures forall x :: x in Without(c, done + {e.desc.digest}).entries ==> x.ref != e.ref
  {
  }

  /** A plan takes exactly what goes, which nothing left behind keeps, and
      strands no description however far it gets. */
  ghost predicate SafePlan(l: Layout, es: set<Entry>, root: Digest, order: seq<Digest>) {
    && SetOf(order) + {root} == Going(es, root)
    && !StillHeld(l, es, root)
    && (SubjectElsewhere(es, root) ==> EveryStopIsClean(es, root, order))
  }

  /** What may have been deleted when a removal returns. */
  ghost predicate Safe(l: Layout, es: set<Entry>, root: Digest, done: set<Digest>) {
    && done <= Going(es, root)
    && done !! Kept(l, Others(es, root))
    && (SubjectElsewhere(es, root) ==> NoneStranded(es, done))
  }

  lemma UntaggedGone(es: set<Entry>, ref: string)
    requires ref != ""
    ensures forall e :: e in (set x | x in es :: Untagged(x, ref)) ==> e.ref != ref
  {
  }

  lemma UntagThenDelete(c: Contents, gone: set<Digest>, e: Entry)
    requires TagsUnique(c.entries) && e in c.entries && e.Tagged()
    ensures var untagged := Contents(c.blobs - gone, set x | x in Without(c, gone).entries :: Untagged(x, e.ref));
            Without(untagged, {e.desc.digest}) == Without(c, gone + {e.desc.digest})
  {
    assert c.blobs - gone - {e.desc.digest} == c.blobs - (gone + {e.desc.digest});
    var es := set x | x in Without(c, gone).entries :: Untagged(x, e.ref);
    forall x | x in Without(c, gone).entries && x.desc.digest != e.desc.digest
      ensures Untagged(x, e.ref) == x && x in es
    {
      assert Untagged(x, e.ref) in es;
    }
    forall y | y in es && y.desc.digest != e.desc.digest
      ensures y in Without(c, gone).entries
    {
      var x :| x in Without(c, gone).entries && Untagged(x, e.ref) == y;
    }
  }

  ghost function OrphanedAmong(entries: seq<Entry>, admitted: set<Digest>): set<Entry> {
    set e | e in entries && e.Tagged() && e.describes && e.desc.digest !in admitted
  }

  ghost function UnplacedAmong(entries: seq<Entry>, reachable: set<Digest>): set<Entry> {
    set e | e in entries && !e.Tagged() && e.subject.Some? && e.subject.value.digest !in reachable
  }

  lemma OrphanedStep(entries: seq<Entry>, k: nat, admitted: set<Digest>)
    requires k < |entries|
    ensures var e := entries[k];
            Digests(OrphanedAmong(entries[..k + 1], admitted))
            == Digests(OrphanedAmong(entries[..k], admitted))
               + if e.Tagged() && e.describes && e.desc.digest !in admitted then {e.desc.digest} else {}
  {
    var e := entries[k];
    assert forall x :: x in entries[..k + 1] <==> x in entries[..k] || x == e;
    var orphaned := e.Tagged() && e.describes && e.desc.digest !in admitted;
    assert OrphanedAmong(entries[..k + 1], admitted)
           == OrphanedAmong(entries[..k], admitted) + if orphaned then {e} else {};
  }

  lemma UnplacedStep(entries: seq<Entry>, k: nat, reachable: set<Digest>)
    requires k < |entries|
    ensures var e := entries[k];
            Digests(UnplacedAmong(entries[..k + 1], reachable))
            == Digests(UnplacedAmong(entries[..k], reachable))
               + if !e.Tagged() && e.subject.Some? && e.subject.value.digest !in reachable then {e.desc.digest} else {}
  {
    var e := entries[k];
    assert forall x :: x in entries[..k + 1] <==> x in entries[..k] || x == e;
    var unplaced := !e.Tagged() && e.subject.Some? && e.subject.value.digest !in reachable;
    assert UnplacedAmong(entries[..k + 1], reachable)
           == UnplacedAmong(entries[..k], reachable) + if unplaced then {e} else {};
  }

  function RefsOf(along: seq<Entry>, g: Digest): seq<string> {
    if along == [] then []
    else (if along[0].desc.digest == g && along[0].Tagged() then [along[0].ref] else []) + RefsOf(along[1..], g)
  }

  /** A tag of an entry whose manifest is among those gone. */
  ghost predicate NamesGone(along: seq<Entry>, e: Entry, x: string, gone: set<Digest>) {
    e in along && e.Tagged() && e.ref == x && e.desc.digest in gone
  }

  lemma {:induction false} RefsOfExactly(along: seq<Entry>, g: Digest, x: string)
    ensures x in RefsOf(along, g) <==> exists e :: NamesGone(along, e, x, {g})
  {
    if along != [] {
      RefsOfExactly(along[1..], g, x);
      if e :| NamesGone(along[1..], e, x, {g}) {
        assert NamesGone(along, e, x, {g});
      }
      if along[0].desc.digest == g && along[0].Tagged() && along[0].ref == x {
        assert NamesGone(along, along[0], x, {g});
      }
      if e :| NamesGone(along, e, x, {g}) {
        assert e == along[0] || NamesGone(along[1..], e, x, {g});
      }
    }
  }

  lemma MoreRefs(along: seq<Entry>, refs: seq<string>, gone: set<Digest>, g: Digest)
    requires forall x :: x in refs <==> exists e :: NamesGone(along, e, x, gone)
    ensures forall x :: x in refs + RefsOf(along, g) <==> exists e :: NamesGone(along, e, x, gone + {g})
  {
    forall x
      ensures x in refs + RefsOf(along, g) <==> exists e :: NamesGone(along, e, x, gone + {g})
    {
      RefsOfExactly(along, g, x);
      if e :| NamesGone(along, e, x, gone) {
        assert NamesGone(along, e, x, gone + {g});
      }
      if e :| NamesGone(along, e, x, {g}) {
        assert NamesGone(along, e, x, gone + {g});
      }
      if e :| NamesGone(along, e, x, gone + {g}) {
        assert NamesGone(along, e, x, gone) || NamesGone(along, e, x, {g});
      }
    }
  }

  lemma RefsAreTags(es: set<Entry>, along: seq<Entry>, root: Digest, refs: seq<string>, done: set<Digest>)
    requires along == [] || EntrySet(along) == Along(es, root)
    requires done <= Digests(EntrySet(along)) && root !in done
    requires forall x :: x in refs <==> exists e :: NamesGone(along, e, x, done)
    ensures forall x :: x in refs <==> exists e :: e in es && e.Tagged() && e.ref == x && e.desc.digest in done
  {
    forall x
      ensures x in refs <==> exists e :: e in es && e.Tagged() && e.ref == x && e.desc.digest in done
    {
      if e :| NamesGone(along, e, x, done) {
        assert e in EntrySet(along);
      }
      if e :| e in es && e.Tagged() && e.ref == x && e.desc.digest in done {
        assert e in EntrySet(along);
        assert NamesGone(along, e, x, done);
      }
    }
  }

  method KeepTagged(entries: seq<Entry>) returns (tagged: seq<Entry>)
    ensures EntrySet(tagged) == Tagged(EntrySet(entries))
  {
    tagged := [];
    for k := 0 to |entries|
      invariant EntrySet(tagged) == Tagged(EntrySet(entries[..k]))
    {
      var e := entries[k];
      assert EntrySet(entries[..k + 1]) == EntrySet(entries[..k]) + {e};
      if e.Tagged() {
        assert EntrySet(tagged + [e]) == EntrySet(tagged) + {e};
        tagged := tagged + [e];
      }
    }
    assert entries[..|entries|] == entries;
  }

  lemma WithoutNone(c: Contents)
    ensures Without(c, {}) == c
  {
    assert c.blobs - {} == c.blobs;
  }

  lemma WithoutMore(c: Contents, gone: set<Digest>, g: Digest)
    ensures Without(Without(c, gone), {g}) == Without(c, gone + {g})
  {
    assert c.blobs - gone - {g} == c.blobs - (gone + {g});
  }
}
