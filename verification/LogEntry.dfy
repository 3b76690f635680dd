/** Accepting a transparency-log entry: the composition of the entry's signed
    timestamp, the signed checkpoint and the inclusion proof. */
module LogEntry {
  import opened Wrappers
  import opened Primitives
  import opened Numbers
  import opened Merkle
  import opened Checkpoint

  datatype Proof = Proof(logIndex: int64, treeSize: int64, rootHash: Bytes, hashes: seq<Bytes>, envelope: string)

  datatype Entry = Entry(
    proof: Option<Proof>, logId: Bytes, promise: Bytes, integratedTime: int64, logIndex: int64, body: Bytes)

  /** A pinned log: its key, and the window its entries may be dated in. */
  datatype LogKey = LogKey(verify: Verifier, start: Option<int64>, end: Option<int64>) {
    predicate Covers(t: int64) {
      !(start.Some? && t < start.value) && !(end.Some? && end.value < t)
    }
  }

  /** What is foreign to this model: the hash, base64, hexadecimal, and reading
      what signature an entry is about. */
  datatype World = World(
    sha: Hasher,
    b64: Base64,
    hex: Bytes -> string,
    describes: Bytes -> bool,
    logs: map<Bytes, LogKey>)
  {
    /** Neither encoding loses anything or holds a quote. */
    ghost predicate Lawful() {
      && IsSha256(sha) && b64.Lawful()
      && (forall b :: '"' !in b64.encode(b))
      && (forall b :: '"' !in hex(b))
      && (forall a, b :: hex(a) == hex(b) ==> a == b)
    }
  }

  datatype EntryError =
    | NoProof | NoCheckpoint | UnknownLog | NoTimestamp | TimestampNotSigned | OutsideWindow
    | BadCheckpoint(c: CheckpointError) | SizeNotSigned | RootNotSigned | NoBody
    | BadProof(p: ProofError) | RootNotRebuilt | OtherSignature

  /** What a log signs when it accepts an entry: its fields in JSON, sorted. */
  function TimestampText(w: World, body: Bytes, time: int64, logId: Bytes, index: int64): string {
    "{\"body\":\"" + (w.b64.encode(body) + ['"'] + DatedText(w, time, logId, index))
  }

  function DatedText(w: World, time: int64, logId: Bytes, index: int64): string {
    ",\"integratedTime\":" + (FormatInt(time) + [','] + LoggedText(w, logId, index))
  }

  function LoggedText(w: World, logId: Bytes, index: int64): string {
    "\"logID\":\"" + (w.hex(logId) + ['"'] + (",\"logIndex\":" + (FormatInt(index) + "}")))
  }

  function FormatInt(x: int): string {
    if x < 0 then "-" + FormatNat(0 - x) else FormatNat(x)
  }

  /** The same written out by hand, as the log that signs it does. */
  ghost function SignedTimestamp(w: World, body: Bytes, time: int64, logId: Bytes, index: int64): string {
    "{\"body\":\"" + w.b64.encode(body) + "\",\"integratedTime\":" + FormatInt(time)
    + ",\"logID\":\"" + w.hex(logId) + "\",\"logIndex\":" + FormatInt(index) + "}"
  }

  lemma Regrouped(a: string, b: string, x: char, c: string, rest: string)
    ensures a + (b + [x] + (c + rest)) == a + b + ([x] + c) + rest
  {
  }

  lemma TimestampIsWritten(w: World, body: Bytes, time: int64, logId: Bytes, index: int64)
    ensures TimestampText(w, body, time, logId, index) == SignedTimestamp(w, body, time, logId, index)
  {
    var last := FormatInt(index) + "}";
    var logged := w.hex(logId) + ['"'] + (",\"logIndex\":" + last);
    var dated := FormatInt(time) + [','] + ("\"logID\":\"" + logged);
    var a := "{\"body\":\"" + w.b64.encode(body) + (['"'] + ",\"integratedTime\":");
    Regrouped("{\"body\":\"", w.b64.encode(body), '"', ",\"integratedTime\":", dated);
    Regrouped(a, FormatInt(time), ',', "\"logID\":\"", logged);
    var b := a + FormatInt(time) + ([','] + "\"logID\":\"");
    Regrouped(b, w.hex(logId), '"', ",\"logIndex\":", last);
    var c := b + w.hex(logId) + (['"'] + ",\"logIndex\":");
    assert c + last == c + FormatInt(index) + "}";
    Quoted();
  }

  lemma Quoted()
    ensures ['"'] + ",\"integratedTime\":" == "\",\"integratedTime\":"
    ensures [','] + "\"logID\":\"" == ",\"logID\":\""
    ensures ['"'] + ",\"logIndex\":" == "\",\"logIndex\":"
  {
  }

  method VerifyEntryTimestamp(w: World, entry: Entry, key: LogKey) returns (e: Option<EntryError>)
    ensures e.None? <==>
              entry.promise != []
              && key.verify(SignedTimestamp(w, entry.body, entry.integratedTime, entry.logId, entry.logIndex), entry.promise)
  {
    TimestampIsWritten(w, entry.body, entry.integratedTime, entry.logId, entry.logIndex);
    if |entry.promise| == 0 {
      return Some(NoTimestamp);
    }
    var signed := TimestampText(w, entry.body, entry.integratedTime, entry.logId, entry.logIndex);
    return if key.verify(signed, entry.promise) then None else Some(TimestampNotSigned);
  }

  /** A key of the pinned log signed that it recorded this body, at this index,
      at this time. */
  ghost predicate Dated(w: World, entry: Entry, t: int64) {
    && entry.logId in w.logs
    && var key := w.logs[entry.logId];
       && (key.start.Some? ==> key.start.value <= t) && (key.end.Some? ==> t <= key.end.value)
       && key.verify(SignedTimestamp(w, entry.body, t, entry.logId, entry.logIndex), entry.promise)
  }

  /** The pinned log's key signed a text stating this root and size. */
  ghost predicate SignedHead(w: World, entry: Entry, text: string, sig: Bytes, root: Bytes, size: int64) {
    && entry.logId in w.logs
    && w.logs[entry.logId].verify(text, sig)
    && States(w.b64, text, root, size)
  }

  /** The entry is in a tree of the standard's, of these bodies and with this
      head, as its proof says. */
  ghost predicate Recorded(w: World, entry: Entry, bodies: seq<Bytes>, root: Bytes) {
    && entry.proof.Some? && TreeHead(w.sha, bodies, root)
    && var p := entry.proof.value;
       && 0 <= p.logIndex < |bodies| == p.treeSize && p.rootHash == root
       && bodies[p.logIndex] == entry.body && AuditPath(w.sha, p.logIndex, bodies, p.hashes)
  }

  /** Its envelope is the checkpoint a log of this name prints for that head,
      signed with the pinned key. */
  ghost predicate Printed(w: World, entry: Entry, root: Bytes, size: int64, origin: string, more: string,
                          hint: Bytes, sig: Bytes, before: seq<string>, after: seq<string>) {
    && entry.proof.Some? && entry.logId in w.logs && size > 0
    && '\n' !in origin && (exists word :: Words(origin, [word])) && (more == "" || more[|more| - 1] == '\n')
    && |hint| == 4 && sig != [] && w.logs[entry.logId].verify(NoteText(w.b64, origin, size, root, more), sig)
    && (forall l :: l in before + after ==>
          PlainLine(l) && !Verifies(w.b64, w.logs[entry.logId].verify, NoteText(w.b64, origin, size, root, more), l))
    && entry.proof.value.envelope == Print(w.b64, origin, size, root, more, hint, sig, before, after)
  }

  /** A log recorded this body, dated it, and proves it. */
  ghost predicate Genuine(w: World, entry: Entry) {
    && entry.promise != [] && entry.body != [] && Dated(w, entry, entry.integratedTime) && w.describes(entry.body)
    && exists bodies: seq<Bytes>, root: Bytes ::
         0 < |bodies| < 0x8000_0000_0000_0000 && Recorded(w, entry, bodies, root)
         && exists origin, more, hint, sig, before, after ::
              Printed(w, entry, root, |bodies|, origin, more, hint, sig, before, after)
  }

  /** Accepted exactly when the entry is dated by its log's signature, and the
      inclusion proof rebuilds the root its signed checkpoint states. */
  ghost predicate Acceptable(w: World, entry: Entry) {
    && entry.proof.Some? && entry.proof.value.envelope != "" && entry.promise != [] && entry.body != []
    && Dated(w, entry, entry.integratedTime)
    && var p := entry.proof.value;
       Answer(w.b64, w.logs[entry.logId].verify, p.envelope) == Ok((p.rootHash, p.treeSize))
       && Rebuild(w.sha, p.logIndex, p.treeSize, LeafHash(w.sha, entry.body), p.hashes) == Ok(p.rootHash)
       && w.describes(entry.body)
  }

  method VerifyLogEntry(w: World, entry: Entry) returns (r: Result<int64, EntryError>)
    ensures r.Ok? <==> Acceptable(w, entry)
    ensures r.Ok? ==> r.value == entry.integratedTime
    ensures w.Lawful() && Genuine(w, entry) ==> r.Ok?
  {
    if w.Lawful() && Genuine(w, entry) {
      GenuineIsAcceptable(w, entry);
    }
    if entry.proof.None? {
      return Err(NoProof);
    }
    var p := entry.proof.value;
    if p.envelope == "" {
      return Err(NoCheckpoint);
    }
    if entry.logId !in w.logs {
      return Err(UnknownLog);
    }
    var key := w.logs[entry.logId];
    var undated := VerifyEntryTimestamp(w, entry, key);
    if undated.Some? {
      return Err(undated.value);
    }
    if !key.Covers(entry.integratedTime) {
      return Err(OutsideWindow);
    }
    var head := VerifyCheckpoint(w.b64, key.verify, p.envelope);
    if head.Err? {
      return Err(BadCheckpoint(head.error));
    }
    var (signedRoot, signedSize) := head.value;
    if signedSize != p.treeSize {
      return Err(SizeNotSigned);
    }
    if signedRoot != p.rootHash {
      return Err(RootNotSigned);
    }
    if |entry.body| == 0 {
      return Err(NoBody);
    }
    var computed := RootFromInclusionProof(w.sha, p.logIndex, p.treeSize, LeafHash(w.sha, entry.body), p.hashes);
    if computed.Err? {
      return Err(BadProof(computed.error));
    }
    if computed.value != signedRoot {
      return Err(RootNotRebuilt);
    }
    if !w.describes(entry.body) {
      return Err(OtherSignature);
    }
    return Ok(entry.integratedTime);
  }

  lemma LeafBinds(sha: Hasher, a: Bytes, b: Bytes) returns (col: Collision)
    requires LeafHash(sha, a) == LeafHash(sha, b)
    ensures a == b || col.Breaks(sha)
  {
    col := Collision([0] + a, [0] + b);
    if [0] + a == [0] + b {
      assert ([0] + a)[1..] == a && ([0] + b)[1..] == b;
    }
  }

  // ----- what a log hands out is accepted

  lemma PrintedIsAnswered(w: World, entry: Entry, root: Bytes, size: int64, origin: string, more: string,
                          hint: Bytes, sig: Bytes, before: seq<string>, after: seq<string>)
    requires w.Lawful() && |root| == 32 && Printed(w, entry, root, size, origin, more, hint, sig, before, after)
    ensures entry.proof.value.envelope != ""
    ensures Answer(w.b64, w.logs[entry.logId].verify, entry.proof.value.envelope) == Ok((root, size))
  {
    PrintReadsBack(w.b64, w.logs[entry.logId].verify, origin, size, root, more, hint, sig, before, after);
  }

  lemma LeavesSized(sha: Hasher, bodies: seq<Bytes>)
    requires IsSha256(sha)
    ensures AllHashSized(LeafHashes(sha, bodies))
  {
  }

  lemma RecordedIsRebuilt(w: World, entry: Entry, bodies: seq<Bytes>, root: Bytes)
    requires IsSha256(w.sha) && 0 < |bodies| < 0x8000_0000_0000_0000 && Recorded(w, entry, bodies, root)
    ensures |root| == 32
    ensures var p := entry.proof.value;
            Rebuild(w.sha, p.logIndex, p.treeSize, LeafHash(w.sha, entry.body), p.hashes) == Ok(root)
  {
    var p := entry.proof.value;
    var leaves := LeafHashes(w.sha, bodies);
    LeavesSized(w.sha, bodies);
    HeadIsRoot(w.sha, bodies, root);
    RootSized(w.sha, leaves);
    PathIsAudit(w.sha, p.logIndex, bodies, p.hashes);
    var col := InclusionExact(w.sha, leaves, p.logIndex, LeafHash(w.sha, entry.body), p.hashes);
  }

  /** Completeness: an entry some log recorded and dated, with the standard's
      path and a checkpoint as a log prints it, is accepted. */
  lemma GenuineIsAcceptable(w: World, entry: Entry)
    requires w.Lawful() && Genuine(w, entry)
    ensures Acceptable(w, entry)
  {
    var bodies: seq<Bytes>, root: Bytes :|
      0 < |bodies| < 0x8000_0000_0000_0000 && Recorded(w, entry, bodies, root)
      && exists origin, more, hint, sig, before, after ::
           Printed(w, entry, root, |bodies|, origin, more, hint, sig, before, after);
    var origin, more, hint, sig, before, after :|
      Printed(w, entry, root, |bodies|, origin, more, hint, sig, before, after);
    RecordedIsRebuilt(w, entry, bodies, root);
    PrintedIsAnswered(w, entry, root, |bodies|, origin, more, hint, sig, before, after);
  }

  /** What acceptance proves. The log's key dated the entry, and signed a tree
      head; and whatever entries the standard's tree with that head holds, this
      body is the one at the proof's index, unless the hash is broken. */
  lemma AcceptedIsInTheSignedTree(w: World, entry: Entry, bodies: seq<Bytes>)
    returns (text: string, sig: Bytes, root: Bytes, size: int64, col: Collision)
    requires IsSha256(w.sha) && Acceptable(w, entry)
    ensures Dated(w, entry, entry.integratedTime) && SignedHead(w, entry, text, sig, root, size)
    ensures |bodies| == size && TreeHead(w.sha, bodies, root) ==>
              (var i := entry.proof.value.logIndex; 0 <= i < |bodies| && bodies[i] == entry.body)
              || col.Breaks(w.sha)
  {
    var p := entry.proof.value;
    var line;
    text, sig, line := AnswerIsSigned(w.b64, w.logs[entry.logId].verify, p.envelope);
    root, size := p.rootHash, p.treeSize;
    col := Collision([], []);
    if |bodies| == size && TreeHead(w.sha, bodies, root) {
      var leaves := LeafHashes(w.sha, bodies);
      HeadIsRoot(w.sha, bodies, root);
      LeavesSized(w.sha, bodies);
      col := InclusionExact(w.sha, leaves, p.logIndex, LeafHash(w.sha, entry.body), p.hashes);
      if !col.Breaks(w.sha) {
        col := LeafBinds(w.sha, entry.body, bodies[p.logIndex]);
      }
    }
  }

  // ----- what a date binds

  lemma {:induction false} CutAt(a: string, c: char, b: string, x: string, y: string)
    requires c !in a && c !in b && a + [c] + x == b + [c] + y
    ensures a == b && x == y
  {
    if a == [] || b == [] {
      assert (a + [c] + x)[|a|] == c && (b + [c] + y)[|b|] == c;
      assert a == b;
      assert (a + [c] + x)[1..] == x && (b + [c] + y)[1..] == y;
    } else {
      assert (a + [c] + x)[0] == a[0] && (b + [c] + y)[0] == b[0];
      assert (a + [c] + x)[1..] == a[1..] + [c] + x && (b + [c] + y)[1..] == b[1..] + [c] + y;
      CutAt(a[1..], c, b[1..], x, y);
    }
  }

  lemma FormatIntBinds(x: int, y: int)
    requires FormatInt(x) == FormatInt(y)
    ensures x == y
  {
    FormatReads(if x < 0 then -x else x);
    FormatReads(if y < 0 then -y else y);
    var (s, t) := (FormatInt(x), FormatInt(y));
    assert x < 0 ==> s[0] == '-' && s[1..] == FormatNat(0 - x);
    assert y < 0 ==> t[0] == '-' && t[1..] == FormatNat(0 - y);
    assert x >= 0 ==> IsDigit(s[0]);
    assert y >= 0 ==> IsDigit(t[0]);
  }

  lemma Uncovered(p: string, x: string, y: string)
    requires p + x == p + y
    ensures x == y
  {
    assert (p + x)[|p|..] == x && (p + y)[|p|..] == y;
  }

  lemma IndexBinds(i: int, j: int)
    requires FormatInt(i) + "}" == FormatInt(j) + "}"
    ensures i == j
  {
    var (s, t) := (FormatInt(i), FormatInt(j));
    assert (s + "}")[..|s|] == s && (t + "}")[..|t|] == t;
    FormatIntBinds(i, j);
  }

  lemma LoggedBinds(w: World, a: Bytes, i: int64, b: Bytes, j: int64)
    requires w.Lawful() && LoggedText(w, a, i) == LoggedText(w, b, j)
    ensures a == b && i == j
  {
    var (x, y) := (",\"logIndex\":" + (FormatInt(i) + "}"), ",\"logIndex\":" + (FormatInt(j) + "}"));
    Uncovered("\"logID\":\"", w.hex(a) + ['"'] + x, w.hex(b) + ['"'] + y);
    CutAt(w.hex(a), '"', w.hex(b), x, y);
    Uncovered(",\"logIndex\":", FormatInt(i) + "}", FormatInt(j) + "}");
    IndexBinds(i, j);
  }

  lemma DatedBinds(w: World, s: int64, a: Bytes, i: int64, t: int64, b: Bytes, j: int64)
    requires w.Lawful() && DatedText(w, s, a, i) == DatedText(w, t, b, j)
    ensures s == t && a == b && i == j
  {
    var (x, y) := (LoggedText(w, a, i), LoggedText(w, b, j));
    Uncovered(",\"integratedTime\":", FormatInt(s) + [','] + x, FormatInt(t) + [','] + y);
    CutAt(FormatInt(s), ',', FormatInt(t), x, y);
    FormatIntBinds(s, t);
    LoggedBinds(w, a, i, b, j);
  }

  /** One signed timestamp dates one entry: its body, time, log and index. */
  lemma TimestampBinds(w: World, body: Bytes, s: int64, a: Bytes, i: int64, other: Bytes, t: int64, b: Bytes, j: int64)
    requires w.Lawful() && SignedTimestamp(w, body, s, a, i) == SignedTimestamp(w, other, t, b, j)
    ensures body == other && s == t && a == b && i == j
  {
    TimestampIsWritten(w, body, s, a, i);
    TimestampIsWritten(w, other, t, b, j);
    var (x, y) := (DatedText(w, s, a, i), DatedText(w, t, b, j));
    Uncovered("{\"body\":\"", w.b64.encode(body) + ['"'] + x, w.b64.encode(other) + ['"'] + y);
    CutAt(w.b64.encode(body), '"', w.b64.encode(other), x, y);
    assert w.b64.decode(w.b64.encode(body)) == w.b64.decode(w.b64.encode(other));
    DatedBinds(w, s, a, i, t, b, j);
  }
}
