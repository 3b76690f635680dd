/** The repair collection starts with: entries whose manifest is missing go
    first. When that can make `Held` and collection disagree, and when not. */
module Repair {
  import opened Wrappers
  import opened Graph
  import opened Collection

  ghost function Repaired(c: Contents): Contents {
    c.(entries := set e | e in c.entries && Exists(c.blobs, e.desc))
  }

  ghost function Missing(c: Contents): set<Entry> {
    set e | e in c.entries && e.Tagged() && !Exists(c.blobs, e.desc)
  }

  /** Missing blobs that a tag still names as plain content: the walk records
      their digests without asking whether they are there. */
  ghost function MissingPlain(c: Contents): set<Digest> {
    set e | e in Missing(c) && !e.desc.mediaType.Expands() :: e.desc.digest
  }

  /** The untagged entries that describe such a blob. */
  ghost function LostReferrers(c: Contents): set<Entry> {
    UntaggedOn(c.entries, MissingPlain(c))
  }

  ghost function LostReach(c: Contents): set<Digest> {
    Reach(c.blobs, Descs(LostReferrers(c)))
  }

  /** Whatever those reach is kept anyway, once the repair has run, but for the
      missing blobs themselves. */
  ghost predicate LostReachKept(c: Contents) {
    LostReach(c) <= Kept(c.blobs, Repaired(c).entries) + MissingPlain(c)
  }

  /** `Held` and collection, repair included, agree on all that is stored. */
  ghost predicate HeldAgrees(c: Contents) {
    forall g :: g in c.blobs ==> (g in Kept(c.blobs, c.entries) <==> Survives(Repaired(c), g))
  }

  lemma MissingHasNoHead(c: Contents, e: Entry)
    requires c.Valid() && e in c.entries && !Exists(c.blobs, e.desc)
    ensures e.subject.None? && !e.describes
  {
    assert Reads(c.blobs, e);
  }

  /** Nothing lies beyond a missing node. */
  lemma MissingReach(c: Contents)
    ensures Reach(c.blobs, Descs(Missing(c))) == MissingPlain(c)
    ensures MissingPlain(c) !! c.blobs.Keys
  {
    var roots := Descs(Missing(c));
    assert Closed(c.blobs, roots);
    NodesClosed(c.blobs, roots);
    NodesLeast(c.blobs, roots, roots);
    forall d | d in roots
      ensures Placed(c.blobs, d) <==> !d.mediaType.Expands()
    {
    }
  }

  lemma ReferrersStored(c: Contents, e: Entry)
    requires c.Valid() && e in c.entries && e.subject.Some?
    ensures e in Repaired(c).entries && Placed(c.blobs, e.desc)
  {
    SubjectFacts(c.blobs, e);
  }

  lemma RepairedValid(c: Contents)
    requires c.Valid()
    ensures Repaired(c).Valid()
  {
  }

  /** The repair only ever takes away: what is admitted after it was admitted
      before. */
  lemma AdmittedGrows(c: Contents)
    requires c.Valid()
    ensures Admitted(c.blobs, Repaired(c).entries) <= Admitted(c.blobs, c.entries)
  {
    var (l, es, ds) := (c.blobs, c.entries, Repaired(c).entries);
    var a := Admitted(l, es);
    AdmittedClosed(l, es);
    NodesMono(l, Artifacts(ds) + Admitting(ds, a), Artifacts(es) + Admitting(es, a));
    forall e | e in ds && e.subject.Some? && StaysFor(l, e, Grown(l, ds, a))
      ensures e.desc.digest in a
    {
      assert StaysFor(l, e, Grown(l, es, a));
    }
    AdmittedLeast(l, ds, a);
  }

  lemma KeptIsGrown(c: Contents)
    requires c.Valid()
    ensures Kept(c.blobs, Repaired(c).entries)
            <= Grown(c.blobs, Repaired(c).entries, Admitted(c.blobs, Repaired(c).entries))
  {
    RepairedValid(c);
    KeptWithinGrown(c.blobs, Repaired(c).entries);
  }

  /** What is admitted before the repair, at most: what is after, and the
      untagged descriptions of missing blobs. */
  ghost function Bound(c: Contents): set<Digest> {
    Admitted(c.blobs, Repaired(c).entries) + Digests(LostReferrers(c))
  }

  lemma BoundAdmitting(c: Contents)
    requires c.Valid()
    ensures Admitting(c.entries, Bound(c))
            == Admitting(Repaired(c).entries, Admitted(c.blobs, Repaired(c).entries)) + Descs(LostReferrers(c))
  {
    var a := Admitted(c.blobs, Repaired(c).entries);
    forall e | e in c.entries && e.subject.Some?
      ensures e in Repaired(c).entries
    {
      ReferrersStored(c, e);
    }
    forall d | d in Admitting(c.entries, Bound(c))
      ensures d in Admitting(Repaired(c).entries, a) + Descs(LostReferrers(c))
    {
      var e :| e in c.entries && e.subject.Some? && e.desc.digest in Bound(c) && e.desc == d;
      if e.desc.digest !in a {
        var u :| u in LostReferrers(c) && u.desc.digest == e.desc.digest;
        assert u.desc == e.desc;
      }
    }
  }

  lemma ArtifactsRepaired(c: Contents)
    requires c.Valid()
    ensures Artifacts(c.entries) == Artifacts(Repaired(c).entries) + Descs(Missing(c))
  {
    forall e | e in c.entries && !Exists(c.blobs, e.desc) {
      MissingHasNoHead(c, e);
    }
  }

  lemma BoundGrown(c: Contents)
    requires c.Valid() && LostReachKept(c)
    ensures Grown(c.blobs, c.entries, Bound(c))
            <= Grown(c.blobs, Repaired(c).entries, Admitted(c.blobs, Repaired(c).entries)) + MissingPlain(c)
  {
    var (l, es, ds) := (c.blobs, c.entries, Repaired(c).entries);
    var roots := Artifacts(ds) + Admitting(ds, Admitted(l, ds));
    var (lost, missing) := (Descs(LostReferrers(c)), Descs(Missing(c)));
    ArtifactsRepaired(c);
    BoundAdmitting(c);
    assert Artifacts(es) + Admitting(es, Bound(c)) == (roots + lost) + missing;
    ReachUnion(l, roots + lost, missing);
    ReachUnion(l, roots, lost);
    MissingReach(c);
    KeptIsGrown(c);
  }

  lemma BoundClosed(c: Contents)
    requires c.Valid() && LostReachKept(c)
    ensures Admitted(c.blobs, c.entries) <= Bound(c)
  {
    var (l, es, ds) := (c.blobs, c.entries, Repaired(c).entries);
    var grown := Grown(l, ds, Admitted(l, ds));
    BoundGrown(c);
    AdmittedClosed(l, ds);
    forall e | e in es && e.subject.Some? && StaysFor(l, e, Grown(l, es, Bound(c)))
      ensures e.desc.digest in Bound(c)
    {
      ReferrersStored(c, e);
      StaysRepaired(c, e, grown);
    }
    AdmittedLeast(l, es, Bound(c));
  }

  /** A referrer that stays only for a missing blob is one of the untagged
      descriptions of such. */
  lemma StaysRepaired(c: Contents, e: Entry, reachable: set<Digest>)
    requires c.Valid() && e in c.entries && e.subject.Some?
    requires StaysFor(c.blobs, e, reachable + MissingPlain(c))
    ensures StaysFor(c.blobs, e, reachable) || e in LostReferrers(c)
  {
    SubjectFacts(c.blobs, e);
    MissingReach(c);
  }

  /** Then no tagged description is kept for an untagged one's sake alone. */
  lemma KeptMeansNoneOwes(c: Contents)
    requires c.Valid() && LostReachKept(c)
    ensures NoneOwes(c)
  {
    BoundClosed(c);
    forall e | e in c.entries && e.Tagged() && e.describes && e.desc.digest in Admitted(c.blobs, c.entries)
      ensures e.desc.digest in Admitted(c.blobs, Repaired(c).entries)
    {
      if e.desc.digest !in Admitted(c.blobs, Repaired(c).entries) {
        TaggedOfLost(c, e);
      }
    }
  }

  lemma TaggedOfLost(c: Contents, e: Entry)
    requires c.Valid() && e in c.entries && e.Tagged() && e.describes && e.desc.digest in Digests(LostReferrers(c))
    ensures e.desc.digest in Admitted(c.blobs, Repaired(c).entries)
  {
    var u :| u in LostReferrers(c) && u.desc.digest == e.desc.digest;
    assert Reads(c.blobs, e) && Reads(c.blobs, u);
    assert e.subject == u.subject;
    MissingReach(c);
    ReferrersStored(c, e);
    AdmittedClosed(c.blobs, Repaired(c).entries);
  }

  lemma OnRepaired(c: Contents, reachable: set<Digest>)
    requires c.Valid()
    ensures UntaggedOn(c.entries, reachable + MissingPlain(c))
            == UntaggedOn(Repaired(c).entries, reachable) + LostReferrers(c)
  {
    forall e | e in c.entries && e.subject.Some?
      ensures e in Repaired(c).entries
    {
      ReferrersStored(c, e);
    }
  }

  /** What `Held` says of stored content before collection is what collection,
      repair included, then does, if whatever those reach that describe a lost
      blob untagged is kept anyway; in particular if nothing does. */
  lemma HeldPredictsCollection(c: Contents)
    requires c.Valid() && LostReachKept(c)
    ensures HeldAgrees(c)
  {
    KeptMeansNoneOwes(c);
    MissingReach(c);
    HeldAgreesExactlyWhen(c);
  }

  /** And only if all that is stored of it is: agreement on everything stored is
      agreement on that. */
  lemma AgreementNeeds(c: Contents)
    requires c.Valid() && HeldAgrees(c)
    ensures LostReach(c) * c.blobs.Keys <= Kept(c.blobs, Repaired(c).entries)
  {
    RepairedValid(c);
    HeldPredicts(Repaired(c));
    LostIsHeld(c);
  }

  /** No tagged description owes its admission to a lost blob. */
  ghost predicate NoneOwes(c: Contents) {
    forall e :: e in c.entries && e.Tagged() && e.describes && e.desc.digest in Admitted(c.blobs, c.entries) ==>
      e.desc.digest in Admitted(c.blobs, Repaired(c).entries)
  }

  /** What is kept before the repair and what after, when none does. */
  lemma KeptWithLost(c: Contents)
    requires c.Valid() && NoneOwes(c)
    ensures Kept(c.blobs, c.entries) == Kept(c.blobs, Repaired(c).entries) + MissingPlain(c) + LostReach(c)
  {
    var (l, es, ds) := (c.blobs, c.entries, Repaired(c).entries);
    HoldersUnowed(c);
    var (roots, missing, lost) := (Descs(Holders(l, ds)), Descs(Missing(c)), Descs(LostReferrers(c)));
    assert Descs(Holders(l, es)) == roots + missing;
    ReachUnion(l, roots, missing);
    MissingReach(c);
    var on := UntaggedOn(ds, Reach(l, roots));
    OnRepaired(c, Reach(l, roots));
    assert (roots + missing) + Descs(on + LostReferrers(c)) == ((roots + Descs(on)) + lost) + missing;
    ReachUnion(l, (roots + Descs(on)) + lost, missing);
    ReachUnion(l, roots + Descs(on), lost);
  }

  lemma HoldersUnowed(c: Contents)
    requires c.Valid() && NoneOwes(c)
    ensures Holders(c.blobs, c.entries) == Holders(c.blobs, Repaired(c).entries) + Missing(c)
  {
    AdmittedGrows(c);
    forall e | e in c.entries && !Exists(c.blobs, e.desc) {
      MissingHasNoHead(c, e);
    }
  }

  /** A tagged description that does owe it is held, and then collected: were
      it kept, being tagged and reached would have admitted it. */
  lemma AgreementMeansNoneOwes(c: Contents)
    requires c.Valid() && HeldAgrees(c)
    ensures NoneOwes(c)
  {
    var (l, es, ds) := (c.blobs, c.entries, Repaired(c).entries);
    RepairedValid(c);
    HeldPredicts(Repaired(c));
    KeptIsGrown(c);
    AdmittedClosed(l, ds);
    forall e | e in es && e.Tagged() && e.describes && e.desc.digest in Admitted(l, es)
      ensures e.desc.digest in Admitted(l, ds)
    {
      SubjectFacts(l, e);
      HolderIsKept(c, e);
      assert StaysFor(l, e, Grown(l, ds, Admitted(l, ds)));
    }
  }

  lemma HolderIsKept(c: Contents, e: Entry)
    requires c.Valid() && e in Holders(c.blobs, c.entries) && Placed(c.blobs, e.desc)
    ensures e.desc.digest in Kept(c.blobs, c.entries)
  {
    var roots := Descs(Holders(c.blobs, c.entries));
    RootReached(c.blobs, roots + Descs(UntaggedOn(c.entries, Reach(c.blobs, roots))), e.desc);
  }

  /** So in every well-formed store the two agree on everything stored if and
      only if no tagged description owes its admission to a lost blob, and all
      that is stored of what the untagged descriptions of such reach is kept
      anyway. */
  lemma HeldAgreesExactlyWhen(c: Contents)
    requires c.Valid()
    ensures HeldAgrees(c) <==>
            NoneOwes(c) && LostReach(c) * c.blobs.Keys <= Kept(c.blobs, Repaired(c).entries)
  {
    if HeldAgrees(c) {
      AgreementNeeds(c);
      AgreementMeansNoneOwes(c);
    }
    if NoneOwes(c) && LostReach(c) * c.blobs.Keys <= Kept(c.blobs, Repaired(c).entries) {
      KeptWithLost(c);
      MissingReach(c);
      RepairedValid(c);
      HeldPredicts(Repaired(c));
    }
  }

  lemma LostIsHeld(c: Contents)
    requires c.Valid()
    ensures LostReach(c) <= Kept(c.blobs, c.entries)
  {
    var (l, es) := (c.blobs, c.entries);
    var roots := Descs(Holders(l, es));
    forall e | e in Missing(c)
      ensures e in Holders(l, es)
    {
      MissingHasNoHead(c, e);
    }
    NodesMono(l, Descs(Missing(c)), roots);
    MissingReach(c);
    NodesMono(l, Descs(LostReferrers(c)), roots + Descs(UntaggedOn(es, Reach(l, roots))));
  }

  /** `Held` never calls condemned what collection keeps. */
  lemma HeldNeverUnderstates(c: Contents)
    requires c.Valid()
    ensures forall g :: Survives(Repaired(c), g) ==> g in Kept(c.blobs, c.entries)
  {
    var (l, es, ds) := (c.blobs, c.entries, Repaired(c).entries);
    RepairedValid(c);
    HeldPredicts(Repaired(c));
    AdmittedGrows(c);
    var (small, large) := (Descs(Holders(l, ds)), Descs(Holders(l, es)));
    NodesMono(l, small, large);
    NodesMono(l, small + Descs(UntaggedOn(ds, Reach(l, small))), large + Descs(UntaggedOn(es, Reach(l, large))));
  }

  // ----- the exception

  const LOST := Descriptor(Plain("application/octet-stream"), "lost", 1)

  const SIGNATURE := Descriptor(ImageManifest, "signature", 1)

  const SIGNATURE_MANIFEST := Manifest("", None, [], Some(LOST))

  /** A tag over a plain blob that is gone, and an untagged referrer of it. */
  ghost function Example(): Contents {
    Contents(
      map["signature" := Blob(1, true, Some(SIGNATURE_MANIFEST))],
      {Entry(LOST, "tag", None, false), Entry(SIGNATURE, "", Some(LOST), false)})
  }

  /** There the answers differ: `Held` says the referrer is kept, since the
      walk records the missing blob; the repair then drops the tag, and the
      referrer goes. */
  lemma HeldMayOverstate()
    ensures Example().Valid() && !HeldAgrees(Example())
    ensures "signature" in Kept(Example().blobs, Example().entries)
    ensures !Survives(Repaired(Example()), "signature")
  {
    ExampleValid();
    ExampleTags();
    var c := Example();
    var tag, sig := Entry(LOST, "tag", None, false), Entry(SIGNATURE, "", Some(LOST), false);
    ExampleHeld(c, tag, sig);
    ExampleGone(c, sig);
    assert SIGNATURE.digest in c.blobs;
  }

  lemma ExampleTags()
    ensures Tagged(Example().entries) == Missing(Example())
  {
  }

  lemma ExampleValid()
    ensures Example().Valid()
  {
    var l := Example().blobs;
    assert HeadOf(l, LOST) == NO_HEAD;
    assert HeadOf(l, SIGNATURE) == Head(Some(LOST), DescribesOnly(""));
    NothingDescribed();
    assert LOST.digest != SIGNATURE.digest;
  }

  lemma NothingDescribed()
    ensures !DescribesOnly("")
  {
    assert |BUNDLE_PREFIX| > 0 && |COSIGN_PREFIX| > 0;
  }

  lemma ExampleHeld(c: Contents, tag: Entry, sig: Entry)
    requires tag in c.entries && tag.Tagged() && !tag.describes && !tag.desc.mediaType.Expands()
    requires sig in c.entries && !sig.Tagged() && sig.subject == Some(tag.desc) && Exists(c.blobs, sig.desc)
    ensures sig.desc.digest in Kept(c.blobs, c.entries)
  {
    var roots := Descs(Holders(c.blobs, c.entries));
    assert tag in Holders(c.blobs, c.entries);
    RootReached(c.blobs, roots, tag.desc);
    var on := UntaggedOn(c.entries, Reach(c.blobs, roots));
    assert sig in on;
    RootReached(c.blobs, roots + Descs(on), sig.desc);
  }

  lemma ExampleGone(c: Contents, sig: Entry)
    requires c.Valid() && sig in c.entries && Tagged(c.entries) == Missing(c)
    requires !sig.Tagged() && sig.subject.Some?
    ensures !Survives(Repaired(c), sig.desc.digest)
  {
    var r := Repaired(c);
    assert forall e :: e in r.entries && e.Tagged() ==> e in Tagged(c.entries) && e in Missing(c);
    assert r.Valid();
    NodesLeast(r.blobs, {}, {});
    assert Holders(r.blobs, r.entries) == {};
    assert Descs({}) == {};
    assert UntaggedOn(r.entries, {}) == {};
    assert Kept(r.blobs, r.entries) == {};
    HeldPredicts(r);
  }
}
