/** Fetching one blob with resume: the partial file, the running hash, and
    what reaches the store, whatever the server answers. */
module Download {
  import opened Wrappers
  import opened Primitives

  /** What a server may answer to a request from some offset on. `broken` ends
      the body early, on either side. */
  datatype Response =
    | NoResponse
    | Full(body: Bytes, broken: bool)
    | Partial(body: Bytes, broken: bool)
    | RangeRefused
    | OtherStatus

  type Server = nat -> Response

  /** Local trouble an attempt may meet: opening the partial to read it, reading
      it, opening it to write, looking at its size, storing it, removing it, and
      closing the answer. */
  datatype Trouble = Trouble(
    openFails: bool, readFails: bool, createFails: bool, statFails: bool, pushFails: bool, removeFails: bool,
    closeFails: bool)

  const NO_TROUBLE := Trouble(false, false, false, false, false, false, false)

  datatype DownloadError =
    | LocalError | Unreachable | Rejected | UnexpectedStatus | Interrupted | WrongSize | DigestMismatch | Cancelled

  const ATTEMPTS := 3

  /** A server that holds the blob: every body it sends is the blob from the
      offset asked for, as far as it gets, and an unbroken body is all of it. */
  ghost predicate Honest(server: Server, blob: Bytes) {
    forall offset: nat :: Serves(server(offset), blob, offset)
  }

  ghost predicate Serves(r: Response, blob: Bytes, offset: nat) {
    match r
    case Full(body, broken) => body <= blob && (!broken ==> body == blob)
    case Partial(body, broken) =>
      0 < offset <= |blob| && body <= blob[offset..] && (!broken ==> body == blob[offset..])
    case RangeRefused => offset >= |blob|
    case _ => true
  }

  /** An answer that carries the blob through to its end. */
  ghost predicate Delivers(r: Response) {
    (r.Full? || r.Partial?) && !r.broken
  }

  /** An attempt with no trouble of its own, whose server sends the rest from
      wherever it is asked to. */
  ghost predicate Reliable(server: Server, t: Trouble, size: nat) {
    t == NO_TROUBLE && forall offset: nat :: offset < size ==> Delivers(server(offset))
  }

  ghost predicate ReadFailed(troubles: seq<Trouble>) {
    exists t :: t in troubles && t.readFails
  }

  class Transfer {
    const sha: Hasher
    const digest: Bytes
    const size: nat
    var partial: Option<Bytes>
    var stored: map<Bytes, Bytes>

    /** Everything stored hashes to the digest it is stored under. */
    ghost predicate Valid()
      reads this
    {
      forall d :: d in stored ==> sha(stored[d]) == d
    }

    /** What is on disk so far. */
    ghost function Fetched(): Bytes
      reads this
    {
      if partial.Some? then partial.value else []
    }

    /** The store after this blob went in, or as it was. */
    ghost predicate StoredOnly(before: map<Bytes, Bytes>, after: map<Bytes, Bytes>) {
      after == before || exists content :: IsBlob(content) && after == before[digest := content]
    }

    ghost predicate IsBlob(content: Bytes) {
      sha(content) == digest && |content| == size
    }

    lemma StoredAgain(a: map<Bytes, Bytes>, b: map<Bytes, Bytes>, c: map<Bytes, Bytes>)
      requires StoredOnly(a, b) && StoredOnly(b, c)
      ensures StoredOnly(a, c)
    {
      if b != a && c != b {
        var x :| IsBlob(x) && b == a[digest := x];
        var y :| IsBlob(y) && c == b[digest := y];
        assert c == a[digest := y];
      }
    }

    /** Replays a partial through the hash. One that cannot be read, or is
        longer than the blob, is discarded. */
    method RehashPartial(t: Trouble) returns (r: Result<(nat, Bytes), DownloadError>)
      modifies this`partial
      ensures r.Ok? ==> r.value == (|Fetched()|, Fetched()) && |Fetched()| <= size
      ensures r.Err? ==> r.error == LocalError && t.openFails && partial == old(partial)
      ensures partial == old(partial) || (partial == None && (t.readFails || |old(Fetched())| > size))
      ensures r.Ok? ==> partial == Kept(old(partial), t)
    {
      if partial.None? {
        return Ok((0, []));
      }
      if t.openFails {
        return Err(LocalError);
      }
      var hasher := partial.value;
      if t.readFails || |hasher| > size {
        partial := None;
        return Ok((0, []));
      }
      return Ok((|hasher|, hasher));
    }

    /** Checks the completed partial's hash and moves it into the store. The
        hash handed in is that of the whole file, wherever it came from. */
    method InstallPartial(hasher: Bytes, t: Trouble) returns (e: Option<DownloadError>)
      requires Valid() && |hasher| == size && hasher == Fetched()
      modifies this`partial, this`stored
      ensures Valid() && StoredOnly(old(stored), stored)
      ensures e.None? ==> digest in stored && partial == None && old(partial).Some?
      ensures stored != old(stored) ==> stored == old(stored)[digest := old(Fetched())]
      ensures e == Some(DigestMismatch) <==> sha(old(Fetched())) != digest
      ensures e == Some(DigestMismatch) ==> partial == None
      ensures e.Some? ==> e.value == DigestMismatch || e.value == LocalError
      ensures partial == old(partial)
              || (partial == None && (e == Some(DigestMismatch) || (digest in stored && sha(old(Fetched())) == digest)))
      ensures t == NO_TROUBLE && sha(old(Fetched())) == digest ==> (e.None? <==> old(partial).Some?)
    {
      if sha(hasher) != digest {
        partial := None;
        return Some(DigestMismatch);
      }
      if partial.None? || t.openFails {
        return Some(LocalError);
      }
      if digest !in stored {
        if t.pushFails {
          return Some(LocalError);
        }
        assert IsBlob(partial.value);
        stored := stored[digest := partial.value];
      }
      if t.removeFails {
        return Some(LocalError);
      }
      partial := None;
      return None;
    }

    /** What is there to go on from, of what was there before. */
    ghost function Kept(before: Option<Bytes>, t: Trouble): Option<Bytes> {
      if before.Some? && (t.readFails || |before.value| > size) then None else before
    }

    ghost function Content(p: Option<Bytes>): Bytes {
      if p.Some? then p.value else []
    }

    /** What an answer makes of it: a full body starts over, a part goes on. */
    ghost function Grown(kept: Bytes, r: Response): Bytes {
      match r
      case Full(body, _) => body
      case Partial(body, _) => kept + body
      case _ => kept
    }

    /** What an attempt that asked for the rest says when it fails, and what it
        leaves. A refused range, a body too long and a wrong hash leave no partial
        to go on from; a body cut short or too short is kept. */
    ghost predicate Answered(kept: Option<Bytes>, r: Response, t: Trouble, e: DownloadError, after: Option<Bytes>) {
      var grown := Grown(Content(kept), r);
      match e
      case Cancelled => false
      case LocalError => t != NO_TROUBLE
      case Unreachable => r.NoResponse? && after == kept
      case UnexpectedStatus => r.OtherStatus? && after == kept
      case Rejected => r.RangeRefused? && after == None
      case Interrupted => (r.Full? || r.Partial?) && r.broken && after == Some(grown)
      case WrongSize => Delivers(r) && |grown| != size && after == if |grown| > size then None else Some(grown)
      case DigestMismatch => Delivers(r) && |grown| == size && sha(grown) != digest && after == None
    }

    /** The same of any attempt: one that finds the blob whole only has its hash
        left to fail on, or that there is no file when the blob is empty. */
    ghost predicate Leaves(before: Option<Bytes>, server: Server, t: Trouble, e: DownloadError, after: Option<Bytes>) {
      var kept := Kept(before, t);
      if |Content(kept)| < size then Answered(kept, server(|Content(kept)|), t, e, after)
      else if e == DigestMismatch then sha(Content(kept)) != digest && after == None
      else e == LocalError && (t != NO_TROUBLE || kept.None?)
    }

    /** The server holds the very blob asked for, and what is on disk so far is
        a start of it. */
    ghost predicate Sound(server: Server, blob: Bytes)
      reads this
    {
      Honest(server, blob) && |blob| == size && sha(blob) == digest && Fetched() <= blob
    }

    /** What is on disk when the answer comes is a start of the blob the server
        holds. */
    ghost predicate Holds(r: Response, kept: Bytes, blob: Bytes) {
      Serves(r, blob, |kept|) && |blob| == size && sha(blob) == digest && kept <= blob
    }

    /** Takes the answer to a request for the rest. */
    method Receive(resp: Response, kept: Bytes, t: Trouble, ghost blob: Bytes) returns (e: Option<DownloadError>)
      requires Valid() && kept == Fetched() && |kept| < size
      modifies this`partial, this`stored
      ensures Valid() && StoredOnly(old(stored), stored)
      ensures e.None? ==> digest in stored && partial == None
      ensures e.Some? ==> Answered(old(partial), resp, t, e.value, partial)
      ensures Holds(resp, kept, blob) ==>
                && Fetched() <= blob && e != Some(DigestMismatch) && e != Some(Rejected)
                && (old(partial).Some? && partial.None? ==> digest in stored)
      ensures Holds(resp, kept, blob) && t == NO_TROUBLE && Delivers(resp) ==> e.None?
    {
      match resp {
        case NoResponse =>
          return Some(Unreachable);
        case OtherStatus =>
          return Some(UnexpectedStatus);
        case RangeRefused =>
          partial := None;
          return Some(Rejected);
        case _ =>
      }
      if t.createFails {
        return Some(LocalError);
      }
      // a full answer ignored the range: start over
      var whole := if resp.Full? then resp.body else kept + resp.body;
      partial := Some(whole);
      if resp.broken {
        return Some(Interrupted);
      }
      if t.statFails {
        return Some(LocalError);
      }
      if |whole| != size {
        if |whole| > size {
          partial := None;
        }
        return Some(WrongSize);
      }
      assert Holds(resp, kept, blob) ==> whole == blob;
      e := InstallPartial(whole, t);
      // the content is in the store, but the attempt says it failed
      if e.None? && t.closeFails {
        e := Some(LocalError);
      }
    }

    /** One attempt, resuming where the partial ends if the server allows it.
        Only content with the blob's digest and size is ever stored. Whatever
        blob the server holds: the partial stays a prefix of it and is never
        found corrupt, and a body that arrives whole is installed, unless the
        blob is empty and no partial is there. An attempt that fails says why,
        and leaves what the next can go on from. */
    method TryDownload(server: Server, t: Trouble, ghost blob: Bytes) returns (e: Option<DownloadError>)
      requires Valid()
      modifies this`partial, this`stored
      ensures Valid() && StoredOnly(old(stored), stored)
      ensures e.None? ==> digest in stored && partial == None && (size > 0 || old(partial).Some?)
      ensures size == 0 && old(partial).None? ==> partial.None?
      ensures e.Some? && !t.openFails ==> Leaves(old(partial), server, t, e.value, partial)
      ensures old(Sound(server, blob)) ==>
                && Fetched() <= blob
                && e != Some(DigestMismatch) && e != Some(Rejected)
                && (old(partial).Some? && partial.None? ==> t.readFails || digest in stored)
      ensures old(Sound(server, blob)) && t == NO_TROUBLE
              && (|old(Fetched())| == size || Delivers(server(|old(Fetched())|))) ==>
                (e.None? <==> size > 0 || old(partial).Some?)
    {
      var h := RehashPartial(t);
      if h.Err? {
        return Some(h.error);
      }
      var (offset, hasher) := h.value;
      assert Sound(server, blob) && offset == size ==> hasher == blob;
      if offset == size {
        e := InstallPartial(hasher, t);
        return;
      }
      assert Honest(server, blob) ==> Serves(server(offset), blob, offset);
      e := Receive(server(offset), hasher, t, blob);
    }

    /** Up to three attempts, each with whatever server and trouble it meets. */
    method DownloadBlob(servers: seq<Server>, troubles: seq<Trouble>, cancelledAfter: nat, ghost blob: Bytes)
      returns (e: Option<DownloadError>)
      requires Valid() && |servers| == 3 && |troubles| == 3
      modifies this`partial, this`stored
      ensures Valid() && StoredOnly(old(stored), stored)
      ensures e.None? ==> digest in stored && partial == None && (size > 0 || old(partial).Some?)
      ensures (forall k :: 0 <= k < 3 ==> old(Sound(servers[k], blob))) ==>
                && Fetched() <= blob && e != Some(DigestMismatch)
                && (old(partial).Some? && partial.None? ==> ReadFailed(troubles) || digest in stored)
                && (Reliable(servers[0], troubles[0], size) ==> (e.None? <==> size > 0 || old(partial).Some?))
                && forall k :: 0 <= k < 3 && k <= cancelledAfter && Reliable(servers[k], troubles[k], size) ==>
                     size > 0 ==> e.None?
    {
      e := Some(Cancelled);
      ghost var honest := forall k :: 0 <= k < ATTEMPTS ==> Sound(servers[k], blob);
      assert honest ==> Sound(servers[0], blob);
      for attempt := 0 to ATTEMPTS
        invariant Valid() && StoredOnly(old(stored), stored) && e.Some?
        invariant honest ==> Fetched() <= blob && e != Some(DigestMismatch)
        invariant size == 0 && old(partial).None? ==> partial.None?
        invariant honest && old(partial).Some? && partial.None? ==> ReadFailed(troubles) || digest in stored
        invariant attempt <= cancelledAfter || attempt == 0
        invariant attempt == 0 ==> partial == old(partial)
        invariant honest && attempt > 0 ==> (size > 0 || old(partial).Some? ==> !Reliable(servers[0], troubles[0], size))
        invariant honest && size > 0 ==> forall k :: 0 <= k < attempt ==> !Reliable(servers[k], troubles[k], size)
      {
        ghost var before := stored;
        assert honest ==> Sound(servers[attempt], blob);
        assert troubles[attempt].readFails ==> ReadFailed(troubles);
        e := TryDownload(servers[attempt], troubles[attempt], blob);
        StoredAgain(old(stored), before, stored);
        if e.None? || attempt >= cancelledAfter {
          return;
        }
      }
    }
  }
}
