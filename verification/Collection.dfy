/** What a store's collection keeps: admission of descriptions as a least
    fixpoint, the kept set, and the proof that asking `Held` beforehand and
    running the passes give one answer. */
module Collection {
  import opened Wrappers
  import opened Graph
  import opened Sets

  /** One manifest the index records. `ref` is "" for an entry with no tag;
      `describes` marks a signature or attestation. */
  datatype Entry = Entry(desc: Descriptor, ref: string, subject: Option<Descriptor>, describes: bool) {
    predicate Tagged() {
      ref != ""
    }
  }

  const DESCRIBING_TYPES: set<string> := {
    "application/vnd.dev.cosign.simplesigning.v1+json",
    "application/vnd.cncf.notary.signature",
    "application/vnd.dsse.envelope.v1+json",
    "application/vnd.in-toto+json",
    "application/spdx+json",
    "application/vnd.cyclonedx+json"
  }

  const BUNDLE_PREFIX := "application/vnd.dev.sigstore.bundle"

  const COSIGN_PREFIX := "application/vnd.dev.cosign.artifact."

  predicate DescribesOnly(artifactType: string) {
    artifactType in DESCRIBING_TYPES || BUNDLE_PREFIX <= artifactType || COSIGN_PREFIX <= artifactType
  }

  /** The media type of a config, when the manifest states no artifact type. */
  function TypeName(m: Manifest): string {
    if m.artifactType != "" then m.artifactType
    else if m.config.Some? && m.config.value.mediaType.Plain? then m.config.value.mediaType.name
    else ""
  }

  datatype Head = Head(subject: Option<Descriptor>, describes: bool)

  const NO_HEAD := Head(None, false)

  /** `readHead`: an error is None; a type that carries no subject has none. */
  function ReadHead(l: Layout, d: Descriptor): Option<Head> {
    if !d.mediaType.CarriesSubject() then Some(NO_HEAD)
    else if !Readable(l, d) then None
    else
      var m := l[d.digest].manifest.value;
      Some(Head(m.subject, m.subject.Some? && DescribesOnly(TypeName(m))))
  }

  /** A manifest that cannot be read is recorded as naming no subject. */
  function HeadOf(l: Layout, d: Descriptor): Head {
    match ReadHead(l, d)
    case Some(h) => h
    case None => NO_HEAD
  }

  ghost predicate Reads(l: Layout, e: Entry) {
    HeadOf(l, e.desc) == Head(e.subject, e.describes)
  }

  /** Entries as the index gives them: each read from the layout, and one
      media type and size per digest. */
  ghost predicate WellFormed(l: Layout, es: set<Entry>) {
    && (forall e :: e in es ==> Reads(l, e))
    && (forall e, f :: e in es && f in es && e.desc.digest == f.desc.digest ==> e.desc == f.desc)
  }

  lemma SubjectFacts(l: Layout, e: Entry)
    requires Reads(l, e)
    ensures e.describes ==> e.subject.Some?
    ensures e.subject.Some? ==> Exists(l, e.desc) && Placed(l, e.desc) && e.subject.value in SuccSet(l, e.desc)
  {
    if e.subject.Some? {
      var m := l[e.desc.digest].manifest.value;
      assert Names(m, true)[0] == e.subject.value;
    }
  }

  // ----- what counts as a description, manifest by manifest

  /** The type a manifest goes by: its own, or its config's when it states none. */
  ghost predicate GoesBy(m: Manifest, t: string) {
    t == m.artifactType || (m.artifactType == "" && m.config.Some? && m.config.value.mediaType == Plain(t))
  }

  /** The type of a signature, an attestation or a bill of materials: cosign's,
      of any kind, Notation's, DSSE's, in-toto's, SPDX's, CycloneDX's, or any
      version of the Sigstore bundle. */
  ghost predicate Describing(t: string) {
    || t == "application/vnd.dev.cosign.simplesigning.v1+json"
    || t == "application/vnd.cncf.notary.signature"
    || t == "application/vnd.dsse.envelope.v1+json"
    || t == "application/vnd.in-toto+json"
    || t == "application/spdx+json"
    || t == "application/vnd.cyclonedx+json"
    || (exists rest :: t == "application/vnd.dev.sigstore.bundle" + rest)
    || (exists rest :: t == "application/vnd.dev.cosign.artifact." + rest)
  }

  ghost predicate ReadsAs(l: Layout, d: Descriptor, m: Manifest) {
    && (d.mediaType.ImageManifest? || d.mediaType.ImageIndex? || d.mediaType.ArtifactManifest?)
    && d.digest in l && l[d.digest].intact && l[d.digest].size == d.size && l[d.digest].manifest == Some(m)
  }

  lemma PrefixRest(p: string, t: string)
    ensures p <= t <==> exists rest :: t == p + rest
  {
    if p <= t {
      assert t == p + t[|p|..];
    }
  }

  lemma DescribingTypes(t: string)
    ensures DescribesOnly(t) <==> Describing(t)
  {
    PrefixRest("application/vnd.dev.sigstore.bundle", t);
    PrefixRest("application/vnd.dev.cosign.artifact.", t);
  }

  lemma EmptyDescribesNothing()
    ensures !Describing("")
  {
    assert forall rest :: |"application/vnd.dev.sigstore.bundle" + rest| > 0;
    assert forall rest :: |"application/vnd.dev.cosign.artifact." + rest| > 0;
  }

  /** An entry has the subject its readable manifest states, and is a description
      when it also goes by such a type; removal and the first pass take no
      other. */
  lemma WhatDescribes(l: Layout, e: Entry)
    requires Reads(l, e)
    ensures forall x :: e.subject == Some(x) <==> exists m :: ReadsAs(l, e.desc, m) && m.subject == Some(x)
    ensures e.describes <==>
            exists m, t :: ReadsAs(l, e.desc, m) && m.subject.Some? && GoesBy(m, t) && Describing(t)
  {
    EmptyDescribesNothing();
    if Readable(l, e.desc) {
      var m := l[e.desc.digest].manifest.value;
      DescribingTypes(TypeName(m));
      assert TypeName(m) != "" ==> GoesBy(m, TypeName(m));
      assert forall t :: GoesBy(m, t) ==> t == "" || t == TypeName(m);
      assert forall x :: ReadsAs(l, e.desc, x) ==> x == m;
    }
  }

  function Descs(es: set<Entry>): set<Descriptor> {
    set e | e in es :: e.desc
  }

  function Digests(es: set<Entry>): set<Digest> {
    set e | e in es :: e.desc.digest
  }

  ghost function Tagged(es: set<Entry>): set<Entry> {
    set e | e in es && e.Tagged()
  }

  ghost function Referrers(es: set<Entry>): set<Entry> {
    set e | e in es && e.subject.Some?
  }

  // ----- admission

  /** The tagged artifacts, which are not there to describe another. */
  ghost function Artifacts(es: set<Entry>): set<Descriptor> {
    set e | e in es && e.Tagged() && !e.describes :: e.desc
  }

  ghost function Admitting(es: set<Entry>, a: set<Digest>): set<Descriptor> {
    set e | e in es && e.subject.Some? && e.desc.digest in a :: e.desc
  }

  /** What the artifacts and the admitted referrers reach. */
  ghost function Grown(l: Layout, es: set<Entry>, a: set<Digest>): set<Digest> {
    Reach(l, Artifacts(es) + Admitting(es, a))
  }

  /** Why a referrer keeps its place. */
  predicate StaysFor(l: Layout, e: Entry, reachable: set<Digest>)
    requires e.subject.Some?
  {
    || e.subject.value.digest in reachable
    || (e.Tagged() && (e.desc.digest in reachable || !Exists(l, e.subject.value)))
  }

  ghost predicate AdmissionClosed(l: Layout, es: set<Entry>, a: set<Digest>) {
    forall e :: e in es && e.subject.Some? && StaysFor(l, e, Grown(l, es, a)) ==> e.desc.digest in a
  }

  ghost predicate InEveryAdmission(l: Layout, es: set<Entry>, g: Digest) {
    forall a: set<Digest> :: AdmissionClosed(l, es, a) ==> g in a
  }

  /** The referrers admitted: the least set closed under `StaysFor`. */
  ghost function Admitted(l: Layout, es: set<Entry>): set<Digest> {
    set g | g in Digests(Referrers(es)) && InEveryAdmission(l, es, g)
  }

  lemma GrownMono(l: Layout, es: set<Entry>, a: set<Digest>, b: set<Digest>)
    requires a <= b
    ensures Grown(l, es, a) <= Grown(l, es, b)
  {
    NodesMono(l, Artifacts(es) + Admitting(es, a), Artifacts(es) + Admitting(es, b));
  }

  lemma AdmittedLeast(l: Layout, es: set<Entry>, a: set<Digest>)
    requires AdmissionClosed(l, es, a)
    ensures Admitted(l, es) <= a
  {
  }

  lemma AdmittedClosed(l: Layout, es: set<Entry>)
    ensures AdmissionClosed(l, es, Admitted(l, es))
  {
    var least := Admitted(l, es);
    forall e | e in es && e.subject.Some? && StaysFor(l, e, Grown(l, es, least))
      ensures e.desc.digest in least
    {
      assert e in Referrers(es);
      forall a: set<Digest> | AdmissionClosed(l, es, a)
        ensures e.desc.digest in a
      {
        AdmittedLeast(l, es, a);
        GrownMono(l, es, least, a);
      }
    }
  }

  // ----- what admission means, entry by entry

  /** Some chain of references leads from a tagged artifact to the digest. */
  ghost predicate Carried(l: Layout, es: set<Entry>, g: Digest) {
    exists e :: CarriedBy(l, es, e, g)
  }

  ghost predicate CarriedBy(l: Layout, es: set<Entry>, e: Entry, g: Digest) {
    e in es && e.ref != "" && !e.describes && LedTo(l, {e.desc}, g)
  }

  /** A tagged artifact leads to the digest, or an entry listed before does. */
  ghost predicate Borne(l: Layout, es: set<Entry>, before: seq<Entry>, g: Digest) {
    Carried(l, es, g) || exists f :: f in before && LedTo(l, {f.desc}, g)
  }

  /** Each entry listed has its reason: what it describes is borne by what comes
      before; or it has a tag, and is borne itself or describes what is gone. */
  ghost predicate Upheld(l: Layout, es: set<Entry>, order: seq<Entry>) {
    forall i :: 0 <= i < |order| ==>
      && order[i] in es && order[i].subject.Some?
      && var g := order[i].subject.value.digest;
         || Borne(l, es, order[..i], g)
         || (order[i].ref != "" && (Borne(l, es, order[..i], order[i].desc.digest) || g !in l))
  }

  ghost predicate UpheldTo(l: Layout, es: set<Entry>, order: seq<Entry>, g: Digest) {
    order != [] && Upheld(l, es, order) && order[|order| - 1].desc.digest == g
  }

  lemma RootsLead(l: Layout, roots: set<Descriptor>, g: Digest)
    ensures g in Reach(l, roots) <==> exists d :: d in roots && LedTo(l, {d}, g)
  {
    ReachIsLedTo(l, roots, g);
    if LedTo(l, roots, g) {
      var d, path, x :| d in roots && Leads(l, path, d, x) && x.digest == g && (g in l || x.mediaType.Plain?);
      assert d in {d} && LedTo(l, {d}, g);
    }
  }

  /** What is grown so far is what a tagged artifact, or one admitted, leads to. */
  lemma GrownMeans(l: Layout, es: set<Entry>, a: set<Digest>, g: Digest)
    ensures g in Grown(l, es, a) <==>
            Carried(l, es, g) || exists e :: e in es && e.subject.Some? && e.desc.digest in a && LedTo(l, {e.desc}, g)
  {
    RootsLead(l, Artifacts(es) + Admitting(es, a), g);
    if d :| d in Artifacts(es) + Admitting(es, a) && LedTo(l, {d}, g) {
      if e :| e in es && e.Tagged() && !e.describes && e.desc == d {
        assert CarriedBy(l, es, e, g);
      } else {
        var e :| e in es && e.subject.Some? && e.desc.digest in a && e.desc == d;
      }
    }
  }

  lemma BorneIsGrown(l: Layout, es: set<Entry>, before: seq<Entry>, a: set<Digest>, g: Digest)
    requires Borne(l, es, before, g)
    requires forall f :: f in before ==> f in es && f.subject.Some? && f.desc.digest in a
    ensures g in Grown(l, es, a)
  {
    GrownMeans(l, es, a, g);
  }

  lemma NextIsAdmitted(l: Layout, es: set<Entry>, before: seq<Entry>, e: Entry)
    requires e in es && e.subject.Some?
    requires var g := e.subject.value.digest;
             Borne(l, es, before, g) || (e.ref != "" && (Borne(l, es, before, e.desc.digest) || g !in l))
    requires forall f :: f in before ==> f in es && f.subject.Some? && f.desc.digest in Admitted(l, es)
    ensures e.desc.digest in Admitted(l, es)
  {
    AdmittedClosed(l, es);
    if Borne(l, es, before, e.subject.value.digest) {
      BorneIsGrown(l, es, before, Admitted(l, es), e.subject.value.digest);
    } else if Borne(l, es, before, e.desc.digest) {
      BorneIsGrown(l, es, before, Admitted(l, es), e.desc.digest);
    }
  }

  lemma {:induction false} UpheldAreAdmitted(l: Layout, es: set<Entry>, order: seq<Entry>, n: nat)
    requires Upheld(l, es, order) && n <= |order|
    ensures forall i :: 0 <= i < n ==> order[i].desc.digest in Admitted(l, es)
    decreases n
  {
    if n > 0 {
      UpheldAreAdmitted(l, es, order, n - 1);
      NextIsAdmitted(l, es, order[..n - 1], order[n - 1]);
    }
  }

  /** The digests of entries upheld, of all the referrers. */
  ghost function UpheldDigests(l: Layout, es: set<Entry>): set<Digest> {
    set g | g in Digests(Referrers(es)) && exists order :: UpheldTo(l, es, order, g)
  }

  lemma GrownIsBorne(l: Layout, es: set<Entry>, g: Digest) returns (order: seq<Entry>)
    requires WellFormed(l, es) && g in Grown(l, es, UpheldDigests(l, es))
    ensures Upheld(l, es, order) && Borne(l, es, order, g)
  {
    order := [];
    GrownMeans(l, es, UpheldDigests(l, es), g);
    if !Carried(l, es, g) {
      var e :| e in es && e.subject.Some? && e.desc.digest in UpheldDigests(l, es) && LedTo(l, {e.desc}, g);
      order :| UpheldTo(l, es, order, e.desc.digest);
      var f := order[|order| - 1];
      assert f in es && f.desc == e.desc;
    }
  }

  lemma UpheldOneMore(l: Layout, es: set<Entry>, order: seq<Entry>, e: Entry)
    requires Upheld(l, es, order) && e in es && e.subject.Some?
    requires var g := e.subject.value.digest;
             Borne(l, es, order, g) || (e.ref != "" && (Borne(l, es, order, e.desc.digest) || g !in l))
    ensures UpheldTo(l, es, order + [e], e.desc.digest)
  {
    assert (order + [e])[..|order|] == order;
    assert forall i :: 0 <= i < |order| ==> (order + [e])[..i] == order[..i];
  }

  lemma UpheldClosed(l: Layout, es: set<Entry>)
    requires WellFormed(l, es)
    ensures AdmissionClosed(l, es, UpheldDigests(l, es))
  {
    var grown := Grown(l, es, UpheldDigests(l, es));
    forall e | e in es && e.subject.Some? && StaysFor(l, e, grown)
      ensures e.desc.digest in UpheldDigests(l, es)
    {
      var order := [];
      if e.subject.value.digest in grown {
        order := GrownIsBorne(l, es, e.subject.value.digest);
      } else if e.desc.digest in grown {
        order := GrownIsBorne(l, es, e.desc.digest);
      }
      UpheldOneMore(l, es, order, e);
      assert e in Referrers(es);
    }
  }

  /** A referrer is admitted exactly when a list of entries, each upheld by what
      comes before it, ends with it. */
  lemma AdmittedIsUpheld(l: Layout, es: set<Entry>, g: Digest)
    requires WellFormed(l, es)
    ensures g in Admitted(l, es) <==> exists order :: UpheldTo(l, es, order, g)
  {
    UpheldClosed(l, es);
    AdmittedLeast(l, es, UpheldDigests(l, es));
    if order :| UpheldTo(l, es, order, g) {
      UpheldAreAdmitted(l, es, order, |order|);
    }
  }

  lemma AdmittingOne(l: Layout, es: set<Entry>, a: set<Digest>, e: Entry)
    requires WellFormed(l, es) && e in es && e.subject.Some?
    ensures Admitting(es, a + {e.desc.digest}) == Admitting(es, a) + {e.desc}
  {
  }

  lemma AdmitOne(l: Layout, es: set<Entry>, a: set<Digest>, e: Entry)
    requires WellFormed(l, es) && e in es && e.subject.Some?
    requires a <= Admitted(l, es) && StaysFor(l, e, Grown(l, es, a))
    ensures e.desc.digest in Admitted(l, es)
    ensures Grown(l, es, a + {e.desc.digest}) == Grown(l, es, a) + Reach(l, {e.desc})
  {
    AdmittedClosed(l, es);
    GrownMono(l, es, a, Admitted(l, es));
    AdmittingOne(l, es, a, e);
    var roots := Artifacts(es) + Admitting(es, a);
    assert Artifacts(es) + (Admitting(es, a) + {e.desc}) == roots + {e.desc};
    ReachUnion(l, roots, {e.desc});
  }

  ghost function EntrySet(entries: seq<Entry>): set<Entry> {
    set e | e in entries
  }

  function DescsOf(entries: seq<Entry>): seq<Descriptor> {
    seq(|entries|, k requires 0 <= k < |entries| => entries[k].desc)
  }

  lemma DescsListed(entries: seq<Entry>)
    ensures Listed(DescsOf(entries)) == Descs(EntrySet(entries))
  {
    forall d | d in Descs(EntrySet(entries))
      ensures d in Listed(DescsOf(entries))
    {
      var e :| e in entries && e.desc == d;
      var k :| 0 <= k < |entries| && entries[k] == e;
      assert DescsOf(entries)[k] == d;
    }
  }

  /** The tagged entries that are not descriptions, in index order. */
  method TaggedArtifacts(entries: seq<Entry>) returns (roots: seq<Descriptor>)
    ensures Listed(roots) == Artifacts(EntrySet(entries))
  {
    roots := [];
    for k := 0 to |entries|
      invariant Listed(roots) == Artifacts(EntrySet(entries[..k]))
    {
      var e := entries[k];
      assert EntrySet(entries[..k + 1]) == EntrySet(entries[..k]) + {e};
      ListedSplit(roots, [e.desc]);
      if e.Tagged() && !e.describes {
        roots := roots + [e.desc];
      }
    }
    assert entries[..|entries|] == entries;
  }

  ghost predicate Settled(l: Layout, entries: seq<Entry>, admitted: set<Digest>, reachable: set<Digest>) {
    forall e :: e in entries && e.subject.Some? && StaysFor(l, e, reachable) ==> e.desc.digest in admitted
  }

  /** The admission loop computes the least fixpoint, whatever order the index
      lists its entries in, and in at most one pass per referrer and one. */
  method Admit(l: Layout, entries: seq<Entry>) returns (admitted: set<Digest>, passes: nat)
    requires WellFormed(l, EntrySet(entries))
    ensures admitted == Admitted(l, EntrySet(entries))
    ensures passes <= |Digests(Referrers(EntrySet(entries)))| + 1
  {
    ghost var es := EntrySet(entries);
    var roots := TaggedArtifacts(entries);
    var reachable := SuccessorClosure(l, roots);
    admitted := {};
    assert Artifacts(es) + Admitting(es, {}) == Artifacts(es);
    passes := 0;
    var grew := true;
    while grew
      invariant admitted <= Admitted(l, es) && reachable == Grown(l, es, admitted)
      invariant !grew ==> Settled(l, entries, admitted, reachable)
      invariant passes <= |admitted| + if grew then 0 else 1
      decreases Admitted(l, es) - admitted, grew
    {
      grew := false;
      passes := passes + 1;
      ghost var before := admitted;
      for k := 0 to |entries|
        invariant before <= admitted <= Admitted(l, es) && reachable == Grown(l, es, admitted)
        invariant grew <==> before != admitted
        invariant !grew ==> Settled(l, entries[..k], admitted, reachable)
      {
        var e := entries[k];
        assert forall x :: x in entries[..k + 1] ==> x in entries[..k] || x == e;
        if e.subject.None? || e.desc.digest in admitted {
          continue;
        }
        if !StaysFor(l, e, reachable) {
          continue;
        }
        AdmitOne(l, es, admitted, e);
        var under := SuccessorClosure(l, [e.desc]);
        assert Listed([e.desc]) == {e.desc};
        admitted := admitted + {e.desc.digest};
        grew := true;
        reachable := reachable + under;
      }
      assert entries[..|entries|] == entries;
      SubsetSize(before, admitted);
    }
    AdmittedLeast(l, es, admitted);
    SubsetSize(admitted, Digests(Referrers(es)));
  }

  // ----- what is kept

  /** The tagged entries collection leaves tagged. */
  ghost function Holders(l: Layout, es: set<Entry>): set<Entry> {
    set e | e in es && e.Tagged() && (!e.describes || e.desc.digest in Admitted(l, es))
  }

  /** The untagged referrers of something reached. */
  ghost function UntaggedOn(es: set<Entry>, reachable: set<Digest>): set<Entry> {
    set e | e in es && !e.Tagged() && e.subject.Some? && e.subject.value.digest in reachable
  }

  /** What roots reach, with what the untagged referrers of that reach. */
  ghost function WithReferrers(l: Layout, es: set<Entry>, roots: set<Descriptor>): set<Digest> {
    Reach(l, roots + Descs(UntaggedOn(es, Reach(l, roots))))
  }

  ghost function Kept(l: Layout, es: set<Entry>): set<Digest> {
    WithReferrers(l, es, Descs(Holders(l, es)))
  }

  /** Kept is what an entry that keeps its place leads to, or an untagged one over
      what such an entry leads to. Those that keep their place are the tagged
      artifacts, and the tagged descriptions upheld. */
  ghost predicate KeepsPlace(l: Layout, es: set<Entry>, e: Entry) {
    e in es && e.ref != "" && (!e.describes || exists order :: UpheldTo(l, es, order, e.desc.digest))
  }

  ghost predicate KeptBy(l: Layout, es: set<Entry>, e: Entry, g: Digest) {
    KeepsPlace(l, es, e) && LedTo(l, {e.desc}, g)
  }

  ghost predicate KeptOver(l: Layout, es: set<Entry>, e: Entry, u: Entry, g: Digest) {
    && u in es && u.ref == "" && u.subject.Some?
    && KeptBy(l, es, e, u.subject.value.digest) && LedTo(l, {u.desc}, g)
  }

  lemma HoldersKeepPlace(l: Layout, es: set<Entry>)
    requires WellFormed(l, es)
    ensures forall e :: e in Holders(l, es) <==> KeepsPlace(l, es, e)
  {
    forall e | e in es {
      AdmittedIsUpheld(l, es, e.desc.digest);
    }
  }

  lemma HoldersReach(l: Layout, es: set<Entry>, g: Digest)
    requires WellFormed(l, es)
    ensures g in Reach(l, Descs(Holders(l, es))) <==> exists e :: KeptBy(l, es, e, g)
  {
    HoldersKeepPlace(l, es);
    var roots := Descs(Holders(l, es));
    RootsLead(l, roots, g);
    if d :| d in roots && LedTo(l, {d}, g) {
      var e :| e in Holders(l, es) && e.desc == d;
      assert KeptBy(l, es, e, g);
    }
    if e :| KeptBy(l, es, e, g) {
      assert e.desc in roots;
    }
  }

  lemma KeptMeans(l: Layout, es: set<Entry>, g: Digest)
    requires WellFormed(l, es)
    ensures g in Kept(l, es) <==> (exists e :: KeptBy(l, es, e, g)) || exists e, u :: KeptOver(l, es, e, u, g)
  {
    var roots := Descs(Holders(l, es));
    var on := UntaggedOn(es, Reach(l, roots));
    ReachUnion(l, roots, Descs(on));
    HoldersReach(l, es, g);
    RootsLead(l, Descs(on), g);
    if d :| d in Descs(on) && LedTo(l, {d}, g) {
      var u :| u in on && u.desc == d;
      HoldersReach(l, es, u.subject.value.digest);
      var e :| KeptBy(l, es, e, u.subject.value.digest);
      assert KeptOver(l, es, e, u, g);
    }
    if e, u :| KeptOver(l, es, e, u, g) {
      HoldersReach(l, es, u.subject.value.digest);
      assert u in on && u.desc in Descs(on);
    }
  }

  /** In particular whatever a tagged artifact leads to. */
  lemma CarriedIsKept(l: Layout, es: set<Entry>, g: Digest)
    requires WellFormed(l, es) && Carried(l, es, g)
    ensures g in Kept(l, es)
  {
    var e :| CarriedBy(l, es, e, g);
    KeptMeans(l, es, g);
    assert KeptBy(l, es, e, g);
  }

  lemma ReferrerStep(l: Layout, roots: set<Descriptor>, referrers: seq<Entry>, e: Entry)
    ensures EntrySet(referrers + [e]) == EntrySet(referrers) + {e}
    ensures Reach(l, roots + Descs(EntrySet(referrers + [e])))
            == Reach(l, roots + Descs(EntrySet(referrers))) + Reach(l, {e.desc})
  {
    assert EntrySet(referrers + [e]) == EntrySet(referrers) + {e};
    var before := roots + Descs(EntrySet(referrers));
    assert roots + Descs(EntrySet(referrers + [e])) == before + {e.desc};
    ReachUnion(l, before, {e.desc});
  }

  lemma UntaggedOnStep(entries: seq<Entry>, k: nat, reachable: set<Digest>)
    requires k < |entries|
    ensures var e := entries[k];
            UntaggedOn(EntrySet(entries[..k + 1]), reachable)
            == UntaggedOn(EntrySet(entries[..k]), reachable)
               + if !e.Tagged() && e.subject.Some? && e.subject.value.digest in reachable then {e} else {}
  {
    assert EntrySet(entries[..k + 1]) == EntrySet(entries[..k]) + {entries[k]};
  }

  method WithReferrersOf(l: Layout, entries: seq<Entry>, reachable: set<Digest>, ghost roots: set<Descriptor>)
    returns (kept: set<Digest>, referrers: seq<Entry>)
    requires reachable == Reach(l, roots)
    ensures kept == WithReferrers(l, EntrySet(entries), roots)
    ensures EntrySet(referrers) == UntaggedOn(EntrySet(entries), reachable)
  {
    kept := reachable;
    referrers := [];
    assert roots + Descs(EntrySet([])) == roots;
    for k := 0 to |entries|
      invariant EntrySet(referrers) == UntaggedOn(EntrySet(entries[..k]), reachable)
      invariant kept == Reach(l, roots + Descs(EntrySet(referrers)))
    {
      var e := entries[k];
      UntaggedOnStep(entries, k, reachable);
      if e.Tagged() || e.subject.None? || e.subject.value.digest !in reachable {
        continue;
      }
      var under := SuccessorClosure(l, [e.desc]);
      assert Listed([e.desc]) == {e.desc};
      ReferrerStep(l, roots, referrers, e);
      kept := kept + under;
      referrers := referrers + [e];
    }
    assert entries[..|entries|] == entries;
  }

  method KeptHolders(entries: seq<Entry>, admitted: set<Digest>, ghost l: Layout) returns (holders: seq<Entry>)
    requires admitted == Admitted(l, EntrySet(entries))
    ensures EntrySet(holders) == Holders(l, EntrySet(entries))
  {
    holders := [];
    ghost var es := EntrySet(entries);
    for k := 0 to |entries|
      invariant EntrySet(holders) == set e | e in entries[..k] && e.Tagged() && (!e.describes || e.desc.digest in admitted)
    {
      var e := entries[k];
      assert forall x :: x in entries[..k + 1] <==> x in entries[..k] || x == e;
      if e.Tagged() && (!e.describes || e.desc.digest in admitted) {
        assert EntrySet(holders + [e]) == EntrySet(holders) + {e};
        holders := holders + [e];
      }
    }
    assert entries[..|entries|] == entries;
  }

  /** `keeps`: what collection keeps of entries, and the entries keeping it. */
  method Keeps(l: Layout, entries: seq<Entry>) returns (kept: set<Digest>, holders: seq<Entry>)
    requires WellFormed(l, EntrySet(entries))
    ensures kept == Kept(l, EntrySet(entries))
    ensures EntrySet(holders) == var hs := Holders(l, EntrySet(entries));
                                 hs + UntaggedOn(EntrySet(entries), Reach(l, Descs(hs)))
  {
    ghost var es := EntrySet(entries);
    var admitted, _ := Admit(l, entries);
    var tagged := KeptHolders(entries, admitted, l);
    DescsListed(tagged);
    var reachable := SuccessorClosure(l, DescsOf(tagged));
    var referrers;
    kept, referrers := WithReferrersOf(l, entries, reachable, Descs(Holders(l, es)));
    holders := tagged + referrers;
    assert EntrySet(holders) == EntrySet(tagged) + EntrySet(referrers);
  }

  // ----- the passes, on sets of entries

  datatype Contents = Contents(blobs: Layout, entries: set<Entry>) {
    ghost predicate Valid() {
      WellFormed(blobs, entries)
    }
  }

  /** Deleting manifests takes their blobs and every entry naming them. */
  ghost function Without(c: Contents, gone: set<Digest>): Contents {
    Contents(c.blobs - gone, set e | e in c.entries && e.desc.digest !in gone)
  }

  /** The tagged descriptions no tagged artifact carries. */
  ghost function Orphans(c: Contents): set<Digest> {
    set e | e in c.entries && e.Tagged() && e.describes && e.desc.digest !in Admitted(c.blobs, c.entries) :: e.desc.digest
  }

  ghost function TaggedReach(c: Contents): set<Digest> {
    Reach(c.blobs, Descs(Tagged(c.entries)))
  }

  /** What the layout's collector keeps: all that tags reach, and the untagged
      referrers of that. */
  ghost function CollectorKeeps(c: Contents): set<Digest> {
    WithReferrers(c.blobs, c.entries, Descs(Tagged(c.entries)))
  }

  /** What the collector leaves: what it keeps, and the entries of that. */
  ghost function Swept(c: Contents): Contents {
    Without(c, c.blobs.Keys - CollectorKeeps(c))
  }

  /** Untagged entries whose subject the collector cannot place. */
  ghost function Unplaced(c: Contents): set<Entry> {
    set e | e in c.entries && !e.Tagged() && e.subject.Some? && e.subject.value.digest !in TaggedReach(c)
  }

  /** Those of them that go, and those only struck from the index. */
  ghost function Unreachable(c: Contents): set<Digest> {
    Digests(Unplaced(c)) - CollectorKeeps(c)
  }

  ghost function Forgotten(c: Contents): set<Digest> {
    Digests(Unplaced(c)) * CollectorKeeps(c)
  }

  ghost function Forget(c: Contents, ds: set<Digest>): Contents {
    c.(entries := set e | e in c.entries && (e.Tagged() || e.desc.digest !in ds))
  }

  ghost function AfterFirstPass(c: Contents): Contents {
    Without(c, Orphans(c))
  }

  ghost function AfterSecondPass(c: Contents): Contents {
    Forget(Without(c, Unreachable(c)), Forgotten(c))
  }

  ghost function AfterPasses(c: Contents): Contents {
    AfterSecondPass(AfterFirstPass(c))
  }

  ghost predicate Survives(c: Contents, g: Digest) {
    g in AfterPasses(c).blobs && g in CollectorKeeps(AfterPasses(c))
  }

  // ----- the first pass changes nothing that is kept

  lemma WithoutValid(c: Contents, gone: set<Digest>)
    requires c.Valid()
    ensures Without(c, gone).Valid()
  {
  }

  lemma ForgetValid(c: Contents, ds: set<Digest>)
    requires c.Valid()
    ensures Forget(c, ds).Valid()
  {
  }

  /** Nothing admitted, and nothing the admitted reach, is an orphan. */
  lemma OrphansApart(c: Contents)
    requires c.Valid()
    ensures Orphans(c) !! Grown(c.blobs, c.entries, Admitted(c.blobs, c.entries))
  {
    AdmittedClosed(c.blobs, c.entries);
    forall e | e in c.entries && e.Tagged() && e.describes && e.desc.digest !in Admitted(c.blobs, c.entries)
      ensures e.desc.digest !in Grown(c.blobs, c.entries, Admitted(c.blobs, c.entries))
    {
      SubjectFacts(c.blobs, e);
    }
  }

  /** The kept set is part of what admission grew. */
  lemma KeptWithinGrown(l: Layout, es: set<Entry>)
    requires WellFormed(l, es)
    ensures var t := Reach(l, Descs(Holders(l, es)));
            && Descs(Holders(l, es)) + Descs(UntaggedOn(es, t)) <= Artifacts(es) + Admitting(es, Admitted(l, es))
            && forall e :: e in UntaggedOn(es, t) ==> e.desc.digest in Admitted(l, es)
    ensures Kept(l, es) <= Grown(l, es, Admitted(l, es))
  {
    var roots := Artifacts(es) + Admitting(es, Admitted(l, es));
    forall e | e in Holders(l, es)
      ensures e.desc in roots
    {
      SubjectFacts(l, e);
    }
    assert Descs(Holders(l, es)) <= roots;
    NodesMono(l, Descs(Holders(l, es)), roots);
    AdmittedClosed(l, es);
    var more := UntaggedOn(es, Reach(l, Descs(Holders(l, es))));
    forall e | e in more
      ensures e.desc.digest in Admitted(l, es) && e.desc in roots
    {
      assert StaysFor(l, e, Grown(l, es, Admitted(l, es)));
    }
    NodesMono(l, Descs(Holders(l, es)) + Descs(more), roots);
  }

  lemma FirstPassTagged(c: Contents)
    requires c.Valid()
    ensures Tagged(AfterFirstPass(c).entries) == Holders(c.blobs, c.entries)
  {
    forall e | e in Holders(c.blobs, c.entries)
      ensures e.desc.digest !in Orphans(c)
    {
      assert forall f :: f in c.entries && f.desc.digest == e.desc.digest ==> f.desc == e.desc;
    }
  }

  /** The first pass leaves the collector keeping exactly what was kept. */
  lemma FirstPassKeeps(c: Contents)
    requires c.Valid()
    ensures AfterFirstPass(c).Valid()
    ensures CollectorKeeps(AfterFirstPass(c)) == Kept(c.blobs, c.entries)
    ensures Orphans(c) !! Kept(c.blobs, c.entries)
  {
    var (l, es, gone) := (c.blobs, c.entries, Orphans(c));
    var c1 := AfterFirstPass(c);
    WithoutValid(c, gone);
    FirstPassTagged(c);
    OrphansApart(c);
    KeptWithinGrown(l, es);
    var roots := Descs(Holders(l, es));
    var t := Reach(l, roots);
    NodesMono(l, roots, Artifacts(es) + Admitting(es, Admitted(l, es)));
    ReachUnaffected(l, roots, gone);
    var on := UntaggedOn(es, t);
    ReachUnaffected(l, roots + Descs(on), gone);
    assert UntaggedOn(c1.entries, t) == on by {
      assert forall e :: e in on ==> e.desc.digest in Admitted(l, es);
      OrphansNotAdmitted(c);
    }
  }

  lemma OrphansNotAdmitted(c: Contents)
    ensures Orphans(c) !! Admitted(c.blobs, c.entries)
  {
  }

  // ----- the second pass changes nothing the collector keeps

  /** A tagged entry that names a subject is kept, so none is deleted. */
  lemma UnreachableUntagged(c: Contents)
    requires c.Valid()
    ensures forall e :: e in c.entries && e.desc.digest in Unreachable(c) ==> !e.Tagged()
  {
    forall e | e in c.entries && e.Tagged()
      ensures e.desc.digest !in Unreachable(c)
    {
      forall f | f in Unplaced(c) && f.desc.digest == e.desc.digest
        ensures e.desc.digest in CollectorKeeps(c)
      {
        SubjectFacts(c.blobs, f);
        assert e.desc == f.desc;
        RootReached(c.blobs,
          Descs(Tagged(c.entries)) + Descs(UntaggedOn(c.entries, TaggedReach(c))), e.desc);
      }
    }
  }

  lemma SecondPassTagged(c: Contents)
    requires c.Valid()
    ensures Tagged(AfterSecondPass(c).entries) == Tagged(c.entries)
  {
    UnreachableUntagged(c);
  }

  lemma SecondPassReferrers(c: Contents)
    requires c.Valid()
    ensures UntaggedOn(AfterSecondPass(c).entries, TaggedReach(c)) == UntaggedOn(c.entries, TaggedReach(c))
  {
    var roots := Descs(Tagged(c.entries)) + Descs(UntaggedOn(c.entries, TaggedReach(c)));
    forall e | e in UntaggedOn(c.entries, TaggedReach(c))
      ensures e in AfterSecondPass(c).entries
    {
      SubjectFacts(c.blobs, e);
      RootReached(c.blobs, roots, e.desc);
      assert forall f :: f in Unplaced(c) && f.desc.digest == e.desc.digest ==> f.desc == e.desc;
      assert forall f :: f in Unplaced(c) ==> f.desc.digest != e.desc.digest by {
        forall f | f in Unplaced(c) && f.desc.digest == e.desc.digest
          ensures f.subject == e.subject
        {
          assert Reads(c.blobs, f) && Reads(c.blobs, e);
        }
      }
    }
  }

  /** After the second pass the collector keeps what it would have kept, and no
      untagged entry is left whose subject it cannot place, so its search for
      one ends. */
  lemma SecondPassKeeps(c: Contents)
    requires c.Valid()
    ensures AfterSecondPass(c).Valid()
    ensures CollectorKeeps(AfterSecondPass(c)) == CollectorKeeps(c)
    ensures TaggedReach(AfterSecondPass(c)) == TaggedReach(c)
    ensures Unplaced(AfterSecondPass(c)) == {}
  {
    WithoutValid(c, Unreachable(c));
    ForgetValid(Without(c, Unreachable(c)), Forgotten(c));
    SecondPassTagged(c);
    SecondPassReferrers(c);
    var tagged := Descs(Tagged(c.entries));
    var roots := tagged + Descs(UntaggedOn(c.entries, TaggedReach(c)));
    NodesMono(c.blobs, tagged, roots);
    ReachUnaffected(c.blobs, tagged, Unreachable(c));
    ReachUnaffected(c.blobs, roots, Unreachable(c));
  }

  // ----- the prediction

  /** `Held` predicts collection: content present in a well-formed store is
      held exactly when it survives the two passes and the collector. */
  lemma HeldPredicts(c: Contents)
    requires c.Valid()
    ensures AfterPasses(c).Valid() && Unplaced(AfterPasses(c)) == {}
    ensures CollectorKeeps(AfterPasses(c)) == Kept(c.blobs, c.entries)
    ensures forall g :: g in c.blobs ==> (g in Kept(c.blobs, c.entries) <==> Survives(c, g))
  {
    FirstPassKeeps(c);
    SecondPassKeeps(AfterFirstPass(c));
  }
}
