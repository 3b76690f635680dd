/** The graph of content in an OCI layout, and the worklist walk that finds
    everything reachable in it. */
module Graph {
  import opened Wrappers

  type Digest = string

  /** The media types the code tells apart: three manifest types that carry a
      subject, manifests the walk expands that carry none, and all the rest. */
  datatype MediaType = ImageManifest | ImageIndex | ArtifactManifest | OtherManifest | Plain(name: string) {
    predicate CarriesSubject() {
      ImageManifest? || ImageIndex? || ArtifactManifest?
    }

    predicate Expands() {
      !Plain?
    }
  }

  datatype Descriptor = Descriptor(mediaType: MediaType, digest: Digest, size: int)

  datatype Manifest = Manifest(
    artifactType: string, config: Option<Descriptor>, children: seq<Descriptor>, subject: Option<Descriptor>)

  /** A stored blob: its length, whether it still reads as what it is named
      for, and the manifest it decodes to, if it does. */
  datatype Blob = Blob(size: int, intact: bool, manifest: Option<Manifest>)

  type Layout = map<Digest, Blob>

  predicate Exists(l: Layout, d: Descriptor) {
    d.digest in l
  }

  predicate Readable(l: Layout, d: Descriptor) {
    d.digest in l && l[d.digest].intact && l[d.digest].size == d.size && l[d.digest].manifest.Some?
  }

  function Opt(d: Option<Descriptor>): seq<Descriptor> {
    if d.Some? then [d.value] else []
  }

  /** What a manifest names. */
  function Names(m: Manifest, withSubject: bool): seq<Descriptor> {
    (if withSubject then Opt(m.subject) else []) + Opt(m.config) + m.children
  }

  /** `content.Successors`: nothing for a blob, an error for a manifest that
      cannot be read. */
  function Successors(l: Layout, d: Descriptor): Option<seq<Descriptor>> {
    if !d.mediaType.Expands() then Some([])
    else if !Readable(l, d) then None
    else Some(Names(l[d.digest].manifest.value, d.mediaType.CarriesSubject()))
  }

  /** The walk records a node it could read the successors of, and one it
      could not read but does hold; an absent manifest is dropped. */
  predicate Placed(l: Layout, d: Descriptor) {
    Successors(l, d).Some? || Exists(l, d)
  }

  // ----- what is reachable: the least closed set

  function SuccSet(l: Layout, d: Descriptor): set<Descriptor> {
    match Successors(l, d)
    case Some(ds) => set x | x in ds
    case None => {}
  }

  ghost predicate Closed(l: Layout, s: set<Descriptor>) {
    forall d :: d in s ==> SuccSet(l, d) <= s
  }

  /** Every descriptor a walk from the roots could ever meet. */
  ghost function Universe(l: Layout, roots: set<Descriptor>): set<Descriptor> {
    roots + set g, d | g in l && l[g].manifest.Some? && d in Names(l[g].manifest.value, true) :: d
  }

  lemma UniverseClosed(l: Layout, roots: set<Descriptor>)
    ensures Closed(l, Universe(l, roots))
  {
    forall d, x | d in Universe(l, roots) && x in SuccSet(l, d)
      ensures x in Universe(l, roots)
    {
      var m := l[d.digest].manifest.value;
      assert x in Names(m, d.mediaType.CarriesSubject());
      assert x in Names(m, true);
    }
  }

  ghost predicate InEveryClosed(l: Layout, roots: set<Descriptor>, d: Descriptor) {
    forall s: set<Descriptor> :: roots <= s && Closed(l, s) ==> d in s
  }

  /** The descriptors reachable from roots through readable manifests. */
  ghost function Nodes(l: Layout, roots: set<Descriptor>): set<Descriptor> {
    set d | d in Universe(l, roots) && InEveryClosed(l, roots, d)
  }

  /** The digests a closure from roots records. */
  ghost function Reach(l: Layout, roots: set<Descriptor>): set<Digest> {
    set d | d in Nodes(l, roots) && Placed(l, d) :: d.digest
  }

  lemma NodesClosed(l: Layout, roots: set<Descriptor>)
    ensures roots <= Nodes(l, roots) && Closed(l, Nodes(l, roots))
  {
    UniverseClosed(l, roots);
    forall d, x | d in Nodes(l, roots) && x in SuccSet(l, d)
      ensures x in Nodes(l, roots)
    {
      assert x in Universe(l, roots);
      forall s: set<Descriptor> | roots <= s && Closed(l, s)
        ensures x in s
      {
        assert d in s;
      }
    }
  }

  /** Nothing smaller is closed and holds the roots. */
  lemma NodesLeast(l: Layout, roots: set<Descriptor>, s: set<Descriptor>)
    requires roots <= s && Closed(l, s)
    ensures Nodes(l, roots) <= s
  {
  }

  lemma NodesMono(l: Layout, a: set<Descriptor>, b: set<Descriptor>)
    requires a <= b
    ensures Nodes(l, a) <= Nodes(l, b) && Reach(l, a) <= Reach(l, b)
  {
    NodesClosed(l, b);
    NodesLeast(l, a, Nodes(l, b));
  }

  /** Closing two sets of roots together is closing each. */
  lemma ReachUnion(l: Layout, a: set<Descriptor>, b: set<Descriptor>)
    ensures Nodes(l, a + b) == Nodes(l, a) + Nodes(l, b)
    ensures Reach(l, a + b) == Reach(l, a) + Reach(l, b)
  {
    NodesMono(l, a, a + b);
    NodesMono(l, b, a + b);
    NodesClosed(l, a);
    NodesClosed(l, b);
    NodesLeast(l, a + b, Nodes(l, a) + Nodes(l, b));
  }

  /** The roots themselves are recorded when they are placed. */
  lemma RootReached(l: Layout, roots: set<Descriptor>, d: Descriptor)
    requires d in roots && Placed(l, d)
    ensures d.digest in Reach(l, roots)
  {
    NodesClosed(l, roots);
  }

  /** Deleting blobs a closure does not record leaves the closure alone. */
  lemma ReachUnaffected(l: Layout, roots: set<Descriptor>, gone: set<Digest>)
    requires gone !! Reach(l, roots)
    ensures Nodes(l - gone, roots) == Nodes(l, roots) && Reach(l - gone, roots) == Reach(l, roots)
  {
    var l' := l - gone;
    forall d | d in Nodes(l, roots)
      ensures SuccSet(l', d) == SuccSet(l, d) && (Placed(l', d) <==> Placed(l, d))
    {
      if d.digest in gone {
        assert !Placed(l, d);
      }
    }
    NodesClosed(l, roots);
    NodesLeast(l', roots, Nodes(l, roots));
    NodesClosed(l', roots);
    NodesLeast(l, roots, Nodes(l', roots));
  }

  // ----- what reachable means, manifest by manifest

  /** A manifest that can be read names x: as its config, as a layer or child,
      or as its subject if it is of a type that carries one. */
  ghost predicate Refers(l: Layout, d: Descriptor, x: Descriptor) {
    && d.digest in l && !d.mediaType.Plain?
    && var b := l[d.digest];
       b.intact && b.size == d.size && b.manifest.Some?
       && var m := b.manifest.value;
          || m.config == Some(x)
          || x in m.children
          || (m.subject == Some(x)
              && (d.mediaType.ImageManifest? || d.mediaType.ImageIndex? || d.mediaType.ArtifactManifest?))
  }

  ghost predicate Chain(l: Layout, path: seq<Descriptor>) {
    path != [] && forall i :: 0 <= i < |path| - 1 ==> Refers(l, path[i], path[i + 1])
  }

  /** A chain of references from d ends at x. */
  ghost predicate Leads(l: Layout, path: seq<Descriptor>, d: Descriptor, x: Descriptor) {
    Chain(l, path) && path[0] == d && path[|path| - 1] == x
  }

  lemma FollowsReferences(l: Layout, d: Descriptor, x: Descriptor)
    ensures x in SuccSet(l, d) <==> Refers(l, d, x)
  {
    if Readable(l, d) {
      var m := l[d.digest].manifest.value;
      assert x in Names(m, true) <==> m.subject == Some(x) || m.config == Some(x) || x in m.children;
      assert x in Names(m, false) <==> m.config == Some(x) || x in m.children;
    }
  }

  lemma {:induction false} ChainStays(l: Layout, s: set<Descriptor>, path: seq<Descriptor>, k: nat)
    requires Closed(l, s) && Chain(l, path) && path[0] in s && k < |path|
    ensures path[k] in s
    decreases k
  {
    if k > 0 {
      ChainStays(l, s, path, k - 1);
      assert Refers(l, path[k - 1], path[k - 1 + 1]);
      FollowsReferences(l, path[k - 1], path[k]);
    }
  }

  lemma LeadsOn(l: Layout, path: seq<Descriptor>, d: Descriptor, x: Descriptor, y: Descriptor)
    requires Leads(l, path, d, x) && Refers(l, x, y)
    ensures Leads(l, path + [y], d, y)
  {
  }

  /** The nodes chains of references lead to. */
  ghost function Led(l: Layout, roots: set<Descriptor>): set<Descriptor> {
    set x | x in Nodes(l, roots) && exists d, path :: d in roots && Leads(l, path, d, x)
  }

  lemma LedFurther(l: Layout, roots: set<Descriptor>, x: Descriptor, y: Descriptor)
    requires x in Led(l, roots) && y in Nodes(l, roots) && Refers(l, x, y)
    ensures y in Led(l, roots)
  {
    var d, path :| d in roots && Leads(l, path, d, x);
    LeadsOn(l, path, d, x, y);
  }

  lemma LedClosed(l: Layout, roots: set<Descriptor>)
    ensures roots <= Led(l, roots) && Closed(l, Led(l, roots))
  {
    NodesClosed(l, roots);
    forall d | d in roots
      ensures d in Led(l, roots)
    {
      assert Leads(l, [d], d, d);
    }
    forall x, y | x in Led(l, roots) && y in SuccSet(l, x)
      ensures y in Led(l, roots)
    {
      FollowsReferences(l, x, y);
      LedFurther(l, roots, x, y);
    }
  }

  /** A descriptor is a node exactly when some chain of references leads to it
      from a root. */
  lemma NodesAreLedTo(l: Layout, roots: set<Descriptor>, x: Descriptor)
    ensures x in Nodes(l, roots) <==> exists d, path :: d in roots && Leads(l, path, d, x)
  {
    LedClosed(l, roots);
    NodesLeast(l, roots, Led(l, roots));
    if d, path :| d in roots && Leads(l, path, d, x) {
      NodesClosed(l, roots);
      ChainStays(l, Nodes(l, roots), path, |path| - 1);
    }
  }

  /** A chain from a root ends at a descriptor of this digest, which is stored,
      or which names no manifest. */
  ghost predicate LedTo(l: Layout, roots: set<Descriptor>, g: Digest) {
    exists d, path, x ::
      d in roots && Leads(l, path, d, x) && x.digest == g && (g in l || x.mediaType.Plain?)
  }

  lemma ReachIsLedTo(l: Layout, roots: set<Descriptor>, g: Digest)
    ensures g in Reach(l, roots) <==> LedTo(l, roots, g)
  {
    if g in Reach(l, roots) {
      var x :| x in Nodes(l, roots) && Placed(l, x) && x.digest == g;
      NodesAreLedTo(l, roots, x);
    }
    if d, path, x :| d in roots && Leads(l, path, d, x) && x.digest == g && (g in l || x.mediaType.Plain?) {
      NodesAreLedTo(l, roots, x);
    }
  }

  // ----- the worklist

  ghost function Listed(queue: seq<Descriptor>): set<Descriptor> {
    set d | d in queue
  }

  ghost function Recorded(l: Layout, visited: set<Descriptor>): set<Digest> {
    set d | d in visited && Placed(l, d) :: d.digest
  }

  ghost predicate WalkInvariant(
    l: Layout, roots: set<Descriptor>, visited: set<Descriptor>, pending: set<Descriptor>)
  {
    && roots <= visited + pending && visited <= Nodes(l, roots) && pending <= Nodes(l, roots)
    && forall d :: d in visited ==> SuccSet(l, d) <= visited + pending
  }

  lemma ListedSplit(queue: seq<Descriptor>, more: seq<Descriptor>)
    ensures Listed(queue + more) == Listed(queue) + Listed(more)
  {
  }

  lemma LastListed(queue: seq<Descriptor>)
    requires |queue| > 0
    ensures Listed(queue) == Listed(queue[..|queue| - 1]) + {queue[|queue| - 1]}
  {
  }

  lemma QueueStep(l: Layout, node: Descriptor, queue: seq<Descriptor>)
    ensures Listed(queue) + SuccSet(l, node)
            == match Successors(l, node) case None => Listed(queue) case Some(ds) => Listed(queue + ds)
  {
    if Successors(l, node).Some? {
      ListedSplit(queue, Successors(l, node).value);
      assert SuccSet(l, node) == Listed(Successors(l, node).value);
    }
  }

  /** Taking one node off the queue keeps the invariant. */
  lemma WalkStep(l: Layout, roots: set<Descriptor>, visited: set<Descriptor>, rest: set<Descriptor>, node: Descriptor)
    requires WalkInvariant(l, roots, visited, rest + {node})
    ensures WalkInvariant(l, roots, visited + {node}, rest + SuccSet(l, node))
  {
    NodesClosed(l, roots);
    var v, p := visited + {node}, rest + SuccSet(l, node);
    forall d | d in v
      ensures SuccSet(l, d) <= v + p
    {
      if d != node {
        assert SuccSet(l, d) <= visited + (rest + {node});
      }
    }
  }

  lemma RecordedStep(l: Layout, visited: set<Descriptor>, node: Descriptor)
    ensures Recorded(l, visited + {node}) == Recorded(l, visited) + if Placed(l, node) then {node.digest} else {}
  {
    forall g | g in Recorded(l, visited + {node})
      ensures g in Recorded(l, visited) + if Placed(l, node) then {node.digest} else {}
    {
      var d :| d in visited + {node} && Placed(l, d) && d.digest == g;
    }
  }

  lemma WalkDone(l: Layout, roots: set<Descriptor>, visited: set<Descriptor>)
    requires WalkInvariant(l, roots, visited, {})
    ensures visited == Nodes(l, roots) && Recorded(l, visited) == Reach(l, roots)
  {
    NodesLeast(l, roots, visited);
  }

  lemma WalkAgain(l: Layout, roots: set<Descriptor>, visited: set<Descriptor>, rest: set<Descriptor>, node: Descriptor)
    requires node in visited && WalkInvariant(l, roots, visited, rest + {node})
    ensures WalkInvariant(l, roots, visited, rest)
  {
    assert visited + rest == visited + (rest + {node});
  }

  /** The walk records exactly what is reachable, and ends on any graph, with
      cycles or without. */
  method SuccessorClosure(l: Layout, roots: seq<Descriptor>) returns (reachable: set<Digest>)
    ensures reachable == Reach(l, Listed(roots))
    ensures forall g :: g in reachable <==> LedTo(l, Listed(roots), g)
  {
    reachable := {};
    var visited: set<Descriptor> := {};
    var queue := roots;
    ghost var rs := Listed(roots);
    NodesClosed(l, rs);
    while |queue| > 0
      invariant WalkInvariant(l, rs, visited, Listed(queue))
      invariant reachable == Recorded(l, visited)
      decreases Nodes(l, rs) - visited, |queue|
    {
      var node := queue[|queue| - 1];
      LastListed(queue);
      queue := queue[..|queue| - 1];
      if node in visited {
        WalkAgain(l, rs, visited, Listed(queue), node);
        continue;
      }
      WalkStep(l, rs, visited, Listed(queue), node);
      RecordedStep(l, visited, node);
      visited := visited + {node};
      var successors := Successors(l, node);
      QueueStep(l, node, queue);
      if successors.None? {
        if !Exists(l, node) {
          continue;
        }
        reachable := reachable + {node.digest};
        continue;
      }
      reachable := reachable + {node.digest};
      queue := queue + successors.value;
    }
    WalkDone(l, rs, visited);
    forall g {
      ReachIsLedTo(l, rs, g);
    }
  }
}
