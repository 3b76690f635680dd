/** Holding a statement of sources against an artifact's manifest: a counting
    loop that decides equality of two multisets of records. */
module Attestation {
  import opened Wrappers

  /** What makes two layer records the same record. */
  datatype Record = Record(digest: string, repo: string, path: string, revision: string, published: string)

  datatype Annotations = Annotations(repo: string, path: string, revision: string, origin: string)

  datatype Layer = Layer(digest: string, annotations: Annotations)

  datatype Refusal =
    | NoSuchLayer(digest: string) | NoSource(digest: string) | TooMany(digest: string)
    | Disagrees(record: Record, onSource: bool)
    | Uncovered(record: Record)

  function RecordOf(l: Layer): Option<Record> {
    var a := l.annotations;
    if a.repo == "" || a.path == "" then None
    else Some(Record(l.digest, a.repo, a.path, a.revision, if a.origin != "" then "sha256:" + a.origin else ""))
  }

  /** The records a manifest's own layers state, in layer order. */
  function LayersFromManifest(layers: seq<Layer>): seq<Record> {
    if layers == [] then []
    else
      LayersFromManifest(layers[..|layers| - 1])
      + match RecordOf(layers[|layers| - 1]) case Some(r) => [r] case None => []
  }

  /** A layer's own annotations state the record: a repository and a path, and
      with them the revision and, if there is one, the published digest. */
  ghost predicate States(l: Layer, r: Record) {
    && l.digest == r.digest
    && l.annotations.repo == r.repo != "" && l.annotations.path == r.path != ""
    && l.annotations.revision == r.revision
    && (if l.annotations.origin == "" then r.published == "" else r.published == "sha256:" + l.annotations.origin)
  }

  lemma RecordStated(l: Layer, r: Record)
    ensures RecordOf(l) == Some(r) <==> States(l, r)
  {
  }

  /** One layer more. */
  lemma LayersMore(layers: seq<Layer>, l: Layer)
    ensures LayersFromManifest(layers + [l])
            == LayersFromManifest(layers) + match RecordOf(l) case Some(r) => [r] case None => []
  {
    assert (layers + [l])[..|layers|] == layers;
  }

  ghost function Stating(layers: seq<Layer>, r: Record): set<nat> {
    set i: nat | i < |layers| && States(layers[i], r)
  }

  lemma StatingMore(layers: seq<Layer>, l: Layer, r: Record)
    ensures Stating(layers + [l], r) == Stating(layers, r) + if States(l, r) then {|layers|} else {}
  {
  }

  lemma CountMore(rs: seq<Record>, x: Option<Record>, r: Record)
    ensures multiset(rs + match x case Some(y) => [y] case None => [])[r] == multiset(rs)[r] + if x == Some(r) then 1 else 0
  {
    if x.None? {
      assert rs + [] == rs;
    }
  }

  /** Each record is stated as often as there are layers that state it. */
  lemma {:induction false} StatedAsOften(layers: seq<Layer>, r: Record)
    ensures multiset(LayersFromManifest(layers))[r] == |Stating(layers, r)|
    decreases |layers|
  {
    if layers != [] {
      var (init, last) := (layers[..|layers| - 1], layers[|layers| - 1]);
      assert layers == init + [last];
      StatedAsOften(init, r);
      RecordStated(last, r);
      LayersMore(init, last);
      CountMore(LayersFromManifest(init), RecordOf(last), r);
      StatingMore(init, last, r);
    }
  }

  ghost predicate InOrder(layers: seq<Layer>, at: seq<nat>, rs: seq<Record>) {
    && |at| == |rs|
    && (forall k :: 0 <= k < |at| ==> at[k] < |layers| && States(layers[at[k]], rs[k]))
    && forall j, k :: 0 <= j < k < |at| ==> at[j] < at[k]
  }

  lemma InOrderMore(layers: seq<Layer>, at: seq<nat>, rs: seq<Record>, l: Layer)
    requires InOrder(layers, at, rs)
    ensures InOrder(layers + [l], at, rs)
    ensures forall r :: States(l, r) ==> InOrder(layers + [l], at + [|layers|], rs + [r])
  {
  }

  /** And in the order of those layers. */
  lemma {:induction false} StatedInOrder(layers: seq<Layer>) returns (at: seq<nat>)
    ensures InOrder(layers, at, LayersFromManifest(layers))
    decreases |layers|
  {
    at := [];
    if layers != [] {
      var (init, last) := (layers[..|layers| - 1], layers[|layers| - 1]);
      assert layers == init + [last];
      at := StatedInOrder(init);
      LayersMore(init, last);
      InOrderMore(init, at, LayersFromManifest(init), last);
      if RecordOf(last).Some? {
        RecordStated(last, RecordOf(last).value);
        at := at + [|init|];
      }
    }
  }

  function Left(remaining: map<Record, nat>, r: Record): nat {
    if r in remaining then remaining[r] else 0
  }

  ghost predicate Counts(remaining: map<Record, nat>, m: multiset<Record>) {
    forall r :: Left(remaining, r) == m[r]
  }

  ghost predicate HasLayer(layers: seq<Layer>, digest: string) {
    exists l :: l in layers && l.digest == digest
  }

  /** Where a digest first appears among records. */
  ghost predicate FirstOf(want: seq<Record>, digest: string, k: int) {
    0 <= k < |want| && want[k].digest == digest && forall j :: 0 <= j < k ==> want[j].digest != digest
  }

  predicate SameSource(a: Record, b: Record) {
    a.repo == b.repo && a.path == b.path && a.revision == b.revision
  }

  /** Why a record matches nothing left: the artifact has not the layer, has
      no source for it, states this very record fewer times, or states another
      for that digest, of which the first is named with what it differs in. */
  ghost predicate Unmatched(layers: seq<Layer>, want: seq<Record>, a: Record, e: Refusal) {
    match e
    case NoSuchLayer(d) => d == a.digest && !HasLayer(layers, d)
    case NoSource(d) => d == a.digest && HasLayer(layers, d) && forall w :: w in want ==> w.digest != d
    case TooMany(d) => d == a.digest && a in want
    case Disagrees(w, onSource) =>
      a !in want && (exists k :: FirstOf(want, a.digest, k) && want[k] == w) && (onSource <==> !SameSource(a, w))
    case Uncovered(_) => false
  }

  /** The first record of the statement that outruns the artifact's own. */
  ghost predicate FirstExcess(attested: seq<Record>, want: seq<Record>, k: int) {
    && 0 <= k < |attested| && multiset(attested[..k]) <= multiset(want)
    && multiset(attested[..k + 1])[attested[k]] > multiset(want)[attested[k]]
  }

  /** The first record of the artifact, in its own layer order, that the
      statement names too few times. */
  ghost predicate FirstUncovered(attested: seq<Record>, want: seq<Record>, k: int) {
    && 0 <= k < |want| && multiset(attested)[want[k]] < multiset(want)[want[k]]
    && forall j :: 0 <= j < k ==> multiset(attested)[want[j]] >= multiset(want)[want[j]]
  }

  method CountWanted(want: seq<Record>) returns (remaining: map<Record, nat>)
    ensures Counts(remaining, multiset(want))
  {
    remaining := map[];
    for k := 0 to |want|
      invariant Counts(remaining, multiset(want[..k]))
    {
      assert want[..k + 1] == want[..k] + [want[k]];
      remaining := remaining[want[k] := Left(remaining, want[k]) + 1];
    }
    assert want[..|want|] == want;
  }

  lemma LessOne(all: multiset<Record>, part: multiset<Record>, a: Record)
    requires part <= all
    ensures (all - part)[a] == all[a] - part[a]
    ensures all - (part + multiset{a}) == all - part - multiset{a}
  {
  }

  lemma CountsLess(m: map<Record, nat>, rest: multiset<Record>, a: Record)
    requires Counts(m, rest) && Left(m, a) > 0
    ensures Counts(m[a := m[a] - 1], rest - multiset{a})
  {
  }

  /** Takes the attested records off the counts, as far as they go. */
  method Consume(attested: seq<Record>, want: seq<Record>, counts: map<Record, nat>)
    returns (remaining: map<Record, nat>, excess: Option<nat>)
    requires Counts(counts, multiset(want))
    ensures match excess
            case Some(k) => FirstExcess(attested, want, k)
            case None => multiset(attested) <= multiset(want) && Counts(remaining, multiset(want) - multiset(attested))
  {
    remaining := counts;
    ghost var all := multiset(want);
    for k := 0 to |attested|
      invariant multiset(attested[..k]) <= all
      invariant Counts(remaining, all - multiset(attested[..k]))
    {
      var a := attested[k];
      assert attested[..k + 1] == attested[..k] + [a];
      LessOne(all, multiset(attested[..k]), a);
      if Left(remaining, a) == 0 {
        return remaining, Some(k);
      }
      CountsLess(remaining, all - multiset(attested[..k]), a);
      remaining := remaining[a := remaining[a] - 1];
    }
    assert attested[..|attested|] == attested;
    return remaining, None;
  }

  /** The first layer record left over, in the manifest's order. */
  method FirstLeft(attested: seq<Record>, want: seq<Record>, remaining: map<Record, nat>) returns (left: Option<nat>)
    requires multiset(attested) <= multiset(want) && Counts(remaining, multiset(want) - multiset(attested))
    ensures match left
            case Some(k) => FirstUncovered(attested, want, k)
            case None => multiset(attested) == multiset(want)
  {
    ghost var all := multiset(want);
    for k := 0 to |want|
      invariant forall j :: 0 <= j < k ==> multiset(attested)[want[j]] >= all[want[j]]
    {
      assert Left(remaining, want[k]) == (all - multiset(attested))[want[k]];
      if Left(remaining, want[k]) > 0 {
        return Some(k);
      }
    }
    forall r
      ensures multiset(attested)[r] == all[r]
    {
      assert r in all <==> r in want;
    }
    return None;
  }

  /** Nil exactly when the attested records are the manifest's own, each as
      often; otherwise the refusal names the first record in excess, or, when
      none is, the first layer of the manifest left uncovered. */
  method AttestationMatchesManifest(attested: seq<Record>, layers: seq<Layer>) returns (e: Option<Refusal>)
    ensures e.None? <==> multiset(attested) == multiset(LayersFromManifest(layers))
    ensures e.Some? ==> Justified(attested, layers, LayersFromManifest(layers), e.value)
  {
    var want := LayersFromManifest(layers);
    var counts := CountWanted(want);
    var remaining, excess := Consume(attested, want, counts);
    if excess.Some? {
      NotAllIfExcess(attested, want, excess.value);
      var r := Explain(attested[excess.value], layers, want);
      return Some(r);
    }
    var left := FirstLeft(attested, want, remaining);
    return match left case Some(k) => Some(Uncovered(want[k])) case None => None;
  }

  ghost predicate Justified(attested: seq<Record>, layers: seq<Layer>, want: seq<Record>, e: Refusal) {
    match e
    case Uncovered(w) =>
      multiset(attested) <= multiset(want) && exists k :: FirstUncovered(attested, want, k) && want[k] == w
    case _ => exists k :: FirstExcess(attested, want, k) && Unmatched(layers, want, attested[k], e)
  }

  lemma NotAllIfExcess(attested: seq<Record>, want: seq<Record>, k: int)
    requires FirstExcess(attested, want, k)
    ensures multiset(attested) != multiset(want)
  {
    assert attested == attested[..k + 1] + attested[k + 1..];
  }

  method Explain(a: Record, layers: seq<Layer>, want: seq<Record>) returns (e: Refusal)
    ensures Unmatched(layers, want, a, e) && !e.Uncovered?
  {
    var present := exists l :: l in layers && l.digest == a.digest;
    if !present {
      return NoSuchLayer(a.digest);
    }
    var sourced := exists w :: w in want && w.digest == a.digest;
    if !sourced {
      return NoSource(a.digest);
    }
    if a in want {
      return TooMany(a.digest);
    }
    e := FirstDisagreement(a, want);
  }

  /** `unmatchedRecord`, past its first loop. */
  method FirstDisagreement(a: Record, want: seq<Record>) returns (e: Refusal)
    requires a !in want && exists w :: w in want && w.digest == a.digest
    ensures e.Disagrees? && (exists k :: FirstOf(want, a.digest, k) && want[k] == e.record)
    ensures e.onSource <==> !SameSource(a, e.record)
  {
    var k := 0;
    while want[k].digest != a.digest
      invariant 0 <= k < |want|
      invariant forall j :: 0 <= j < k ==> want[j].digest != a.digest
      decreases |want| - k
    {
      k := k + 1;
      assert exists w :: w in want && w.digest == a.digest;
    }
    assert FirstOf(want, a.digest, k) && want[k] in want;
    return Disagrees(want[k], !SameSource(a, want[k]));
  }
}
