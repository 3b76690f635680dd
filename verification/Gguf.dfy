/** GGUF headers: the bounded reader of untrusted files, the writer that makes
    them, and the round trip between the two. */
module Gguf {
  import opened Wrappers
  import opened Primitives

  const MAGIC: Bytes := [71, 71, 85, 70]

  const MAX_KV_COUNT := 65536
  const MAX_KEY_LEN := 64 * 1024
  const MAX_STRING_LEN := 64 * 1024 * 1024
  const MAX_ARRAY_LEN := 64 * 1024 * 1024

  const TYPE_UINT8 := 0
  const TYPE_INT8 := 1
  const TYPE_UINT16 := 2
  const TYPE_INT16 := 3
  const TYPE_UINT32 := 4
  const TYPE_INT32 := 5
  const TYPE_FLOAT32 := 6
  const TYPE_BOOL := 7
  const TYPE_STRING := 8
  const TYPE_ARRAY := 9
  const TYPE_UINT64 := 10
  const TYPE_INT64 := 11
  const TYPE_FLOAT64 := 12

  function ScalarSize(vt: nat): Option<nat> {
    if vt == TYPE_UINT8 || vt == TYPE_INT8 || vt == TYPE_BOOL then Some(1)
    else if vt == TYPE_UINT16 || vt == TYPE_INT16 then Some(2)
    else if vt == TYPE_UINT32 || vt == TYPE_INT32 || vt == TYPE_FLOAT32 then Some(4)
    else if vt == TYPE_UINT64 || vt == TYPE_INT64 || vt == TYPE_FLOAT64 then Some(8)
    else None
  }

  /** A floating-point value is kept as the bits that make it. */
  datatype Value = Uint(n: nat) | Int(i: int) | Bool(b: bool) | Float32(bits32: nat) | Float64(bits64: nat) | Str(s: Bytes)

  datatype ReadError =
    | Short | BadMagic | BadVersion | TooManyKVs | StringTooLong | ArrayTooLong | UnknownType | UnsupportedElement

  datatype Info = Info(version: nat, tensorCount: nat, metadata: map<Bytes, Value>)

  /** A reading that succeeded, and where it left off. */
  type Reading<T> = Result<(T, nat), ReadError>

  // ----- little-endian numbers

  function Pow256(k: nat): (p: nat)
    ensures p >= 1
  {
    if k == 0 then 1 else 256 * Pow256(k - 1)
  }

  function Le(n: nat, k: nat): (b: Bytes)
    ensures |b| == k
    decreases n, k
  {
    if k == 0 then [] else [n % 256] + Le(n / 256, k - 1)
  }

  /** The little-endian number of the k bytes at a position. */
  function LeAt(b: Bytes, pos: nat, k: nat): (n: nat)
    requires pos + k <= |b|
    decreases b, k
  {
    if k == 0 then 0 else b[pos] + 256 * LeAt(b, pos + 1, k - 1)
  }

  lemma {:induction false} LeReads(b: Bytes, pos: nat, n: nat, k: nat)
    requires Has(b, pos, Le(n, k)) && n < Pow256(k)
    ensures LeAt(b, pos, k) == n
    decreases k
  {
    if k > 0 {
      assert Le(n, k) == [n % 256] + Le(n / 256, k - 1);
      HasParts(b, pos, [n % 256], Le(n / 256, k - 1));
      assert b[pos + 0] == [n % 256][0];
      LeReads(b, pos + 1, n / 256, k - 1);
    }
  }

  lemma {:induction false} SameBytes(a: Bytes, i: nat, b: Bytes, j: nat, k: nat)
    requires i + k <= |a| && j + k <= |b| && forall x :: i <= x < i + k ==> a[x] == b[j - i + x]
    ensures LeAt(a, i, k) == LeAt(b, j, k)
    decreases k
  {
    if k > 0 {
      SameBytes(a, i + 1, b, j + 1, k - 1);
    }
  }

  /** The two's-complement reading of an unsigned value of k bytes. */
  function Signed(n: nat, k: nat): int {
    if 2 * n < Pow256(k) then n else n - Pow256(k)
  }

  // ----- what reading means, at a position

  function NumberAt(data: Bytes, pos: nat, k: nat): Reading<nat> {
    if pos + k <= |data| then Ok((LeAt(data, pos, k), pos + k)) else Err(Short)
  }

  function StringAt(data: Bytes, pos: nat, limit: nat): Reading<Bytes> {
    match NumberAt(data, pos, 8)
    case Err(e) => Err(e)
    case Ok((n, at)) =>
      if n > limit then Err(StringTooLong)
      else if at + n > |data| then Err(Short)
      else Ok((data[at..at + n], at + n))
  }

  function ScalarValue(vt: nat, n: nat): Value {
    if vt == TYPE_BOOL then Bool(n != 0)
    else if vt == TYPE_INT8 then Int(Signed(n, 1))
    else if vt == TYPE_INT16 then Int(Signed(n, 2))
    else if vt == TYPE_INT32 then Int(Signed(n, 4))
    else if vt == TYPE_INT64 then Int(Signed(n, 8))
    else if vt == TYPE_FLOAT32 then Float32(n)
    else if vt == TYPE_FLOAT64 then Float64(n)
    else Uint(n)
  }

  function SkipStringsAt(data: Bytes, pos: nat, count: nat): Reading<()>
    decreases count
  {
    if count == 0 then Ok(((), pos))
    else
      match StringAt(data, pos, MAX_STRING_LEN)
      case Err(e) => Err(e)
      case Ok((_, at)) => SkipStringsAt(data, at, count - 1)
  }

  function SkipElementsAt(data: Bytes, pos: nat, elem: nat, count: nat): Reading<()> {
    if count > MAX_ARRAY_LEN then Err(ArrayTooLong)
    else
      match ScalarSize(elem)
      case Some(size) => if pos + count * size <= |data| then Ok(((), pos + count * size)) else Err(Short)
      case None => if elem == TYPE_STRING then SkipStringsAt(data, pos, count) else Err(UnsupportedElement)
  }

  function SkipArrayAt(data: Bytes, pos: nat): Reading<()> {
    match NumberAt(data, pos, 4)
    case Err(e) => Err(e)
    case Ok((elem, at)) =>
      match NumberAt(data, at, 8)
      case Err(e) => Err(e)
      case Ok((count, from)) => SkipElementsAt(data, from, elem, count)
  }

  /** A value, or None for an array, which is skipped. */
  function ValueAt(data: Bytes, pos: nat, vt: nat): Reading<Option<Value>> {
    match ScalarSize(vt)
    case Some(size) =>
      (match NumberAt(data, pos, size)
       case Err(e) => Err(e)
       case Ok((n, at)) => Ok((Some(ScalarValue(vt, n)), at)))
    case None =>
      if vt == TYPE_STRING then
        match StringAt(data, pos, MAX_STRING_LEN)
        case Err(e) => Err(e)
        case Ok((s, at)) => Ok((Some(Str(s)), at))
      else if vt == TYPE_ARRAY then
        match SkipArrayAt(data, pos)
        case Err(e) => Err(e)
        case Ok((_, at)) => Ok((None, at))
      else Err(UnknownType)
  }

  function With(m: map<Bytes, Value>, key: Bytes, v: Option<Value>): map<Bytes, Value> {
    match v case Some(x) => m[key := x] case None => m
  }

  /** One key and its value. */
  function EntryAt(data: Bytes, pos: nat): Reading<(Bytes, Option<Value>)> {
    match StringAt(data, pos, MAX_KEY_LEN)
    case Err(e) => Err(e)
    case Ok((key, at)) =>
      match NumberAt(data, at, 4)
      case Err(e) => Err(e)
      case Ok((vt, from)) =>
        match ValueAt(data, from, vt)
        case Err(e) => Err(e)
        case Ok((v, after)) => Ok(((key, v), after))
  }

  type EntryReader = nat -> Reading<(Bytes, Option<Value>)>

  function Entries(data: Bytes): EntryReader {
    (pos: nat) => EntryAt(data, pos)
  }

  /** Entries one after another, each adding its value to m. */
  function EntriesAt(read: EntryReader, pos: nat, count: nat, m: map<Bytes, Value>): Reading<map<Bytes, Value>>
    decreases count
  {
    if count == 0 then Ok((m, pos))
    else
      match read(pos)
      case Err(e) => Err(e)
      case Ok(((key, v), at)) => EntriesAt(read, at, count - 1, With(m, key, v))
  }

  datatype Header = Header(version: nat, tensorCount: nat, kvCount: nat)

  const HEADER_LEN := 24

  function HeaderOf(data: Bytes): Result<Header, ReadError> {
    if |data| < 4 then Err(Short)
    else if data[..4] != MAGIC then Err(BadMagic)
    else
      match NumberAt(data, 4, 4)
      case Err(e) => Err(e)
      case Ok((version, _)) =>
        if version < 2 || version > 3 then Err(BadVersion)
        else
          match NumberAt(data, 8, 8)
          case Err(e) => Err(e)
          case Ok((tensors, _)) =>
            match NumberAt(data, 16, 8)
            case Err(e) => Err(e)
            case Ok((count, _)) =>
              if count > MAX_KV_COUNT then Err(TooManyKVs) else Ok(Header(version, tensors, count))
  }

  function InfoOf(data: Bytes): Result<Info, ReadError> {
    match HeaderOf(data)
    case Err(e) => Err(e)
    case Ok(h) =>
      match EntriesAt(Entries(data), HEADER_LEN, h.kvCount, map[])
      case Err(e) => Err(e)
      case Ok((m, _)) => Ok(Info(h.version, h.tensorCount, m))
  }

  // ----- the reader

  /** A buffered reader over a file of any contents. */
  class Reader {
    const data: Bytes
    var pos: nat

    constructor (data: Bytes)
      ensures this.data == data && pos == 0
    {
      this.data, this.pos := data, 0;
    }

    /** Takes up to n bytes, or fails at the end of the file. The length is one
        a 32-bit int holds. */
    method Take(n: nat) returns (r: Result<Bytes, ReadError>)
      requires n < 0x8000_0000 && pos <= |data|
      modifies this`pos
      ensures r == if old(pos) + n <= |data| then Ok(data[old(pos)..old(pos) + n]) else Err(Short)
      ensures pos == if r.Ok? then old(pos) + n else |data|
    {
      if pos + n > |data| {
        pos := |data|;
        return Err(Short);
      }
      r := Ok(data[pos..pos + n]);
      pos := pos + n;
    }

    method ReadNumber(k: nat) returns (r: Result<nat, ReadError>)
      requires k <= 8 && pos <= |data|
      modifies this`pos
      ensures pos <= |data| && Agrees(r, NumberAt(data, old(pos), k), pos)
    {
      var b := Take(k);
      if b.Err? {
        return Err(b.error);
      }
      SameBytes(b.value, 0, data, old(pos), k);
      return Ok(LeAt(b.value, 0, k));
    }

    method ReadString(limit: nat) returns (r: Result<Bytes, ReadError>)
      requires limit < 0x8000_0000 && pos <= |data|
      modifies this`pos
      ensures pos <= |data| && Agrees(r, StringAt(data, old(pos), limit), pos)
    {
      var n := ReadNumber(8);
      if n.Err? {
        return Err(n.error);
      }
      if n.value > limit {
        return Err(StringTooLong);
      }
      r := Take(n.value);
    }

    method SkipArray() returns (r: Result<(), ReadError>)
      requires pos <= |data|
      modifies this`pos
      ensures pos <= |data| && Agrees(r, SkipArrayAt(data, old(pos)), pos)
    {
      var elem := ReadNumber(4);
      if elem.Err? {
        return Err(elem.error);
      }
      var count := ReadNumber(8);
      if count.Err? {
        return Err(count.error);
      }
      if count.value > MAX_ARRAY_LEN {
        return Err(ArrayTooLong);
      }
      var size := ScalarSize(elem.value);
      if size.Some? {
        SkipFits(count.value, size.value);
        var skipped := Take(count.value * size.value);
        return match skipped case Ok(_) => Ok(()) case Err(e) => Err(e);
      }
      if elem.value != TYPE_STRING {
        return Err(UnsupportedElement);
      }
      r := SkipStrings(count.value);
    }

    method SkipStrings(count: nat) returns (r: Result<(), ReadError>)
      requires pos <= |data|
      modifies this`pos
      ensures pos <= |data| && Agrees(r, SkipStringsAt(data, old(pos), count), pos)
    {
      for i := 0 to count
        invariant pos <= |data|
        invariant SkipStringsAt(data, old(pos), count) == SkipStringsAt(data, pos, count - i)
      {
        var s := ReadString(MAX_STRING_LEN);
        if s.Err? {
          return Err(s.error);
        }
      }
      return Ok(());
    }

    method ReadValue(vt: nat) returns (r: Result<Option<Value>, ReadError>)
      requires pos <= |data|
      modifies this`pos
      ensures pos <= |data| && Agrees(r, ValueAt(data, old(pos), vt), pos)
    {
      var size := ScalarSize(vt);
      if size.Some? {
        var n := ReadNumber(size.value);
        return match n case Ok(x) => Ok(Some(ScalarValue(vt, x))) case Err(e) => Err(e);
      }
      if vt == TYPE_STRING {
        var s := ReadString(MAX_STRING_LEN);
        return match s case Ok(x) => Ok(Some(Str(x))) case Err(e) => Err(e);
      }
      if vt == TYPE_ARRAY {
        var skipped := SkipArray();
        return match skipped case Ok(_) => Ok(None) case Err(e) => Err(e);
      }
      return Err(UnknownType);
    }

    method ReadEntry() returns (r: Result<(Bytes, Option<Value>), ReadError>)
      requires pos <= |data|
      modifies this`pos
      ensures pos <= |data| && Agrees(r, EntryAt(data, old(pos)), pos)
    {
      var key := ReadString(MAX_KEY_LEN);
      if key.Err? {
        return Err(key.error);
      }
      var vt := ReadNumber(4);
      if vt.Err? {
        return Err(vt.error);
      }
      var v := ReadValue(vt.value);
      return match v case Ok(x) => Ok((key.value, x)) case Err(e) => Err(e);
    }

    method ReadEntries(count: nat) returns (r: Result<map<Bytes, Value>, ReadError>)
      requires pos <= |data|
      modifies this`pos
      ensures pos <= |data| && Agrees(r, EntriesAt(Entries(data), old(pos), count, map[]), pos)
    {
      var metadata: map<Bytes, Value> := map[];
      for i := 0 to count
        invariant pos <= |data|
        invariant EntriesAt(Entries(data), old(pos), count, map[]) == EntriesAt(Entries(data), pos, count - i, metadata)
      {
        var entry := ReadEntry();
        if entry.Err? {
          return Err(entry.error);
        }
        var (key, val) := entry.value;
        if val.Some? {
          metadata := metadata[key := val.value];
        }
      }
      return Ok(metadata);
    }

    method ReadHeader() returns (r: Result<Header, ReadError>)
      requires pos == 0
      modifies this`pos
      ensures pos <= |data| && r == HeaderOf(data) && (r.Ok? ==> pos == HEADER_LEN)
    {
      var magic := Take(4);
      if magic.Err? {
        return Err(magic.error);
      }
      if magic.value != MAGIC {
        return Err(BadMagic);
      }
      var version := ReadNumber(4);
      if version.Err? {
        return Err(version.error);
      }
      if version.value < 2 || version.value > 3 {
        return Err(BadVersion);
      }
      var tensors := ReadNumber(8);
      if tensors.Err? {
        return Err(tensors.error);
      }
      var count := ReadNumber(8);
      if count.Err? {
        return Err(count.error);
      }
      return if count.value > MAX_KV_COUNT then Err(TooManyKVs)
             else Ok(Header(version.value, tensors.value, count.value));
    }
  }

  /** A stateful read and what reading means, position and all. */
  ghost predicate Agrees<T>(r: Result<T, ReadError>, spec: Reading<T>, pos: nat) {
    match spec
    case Ok((v, at)) => r == Ok(v) && pos == at
    case Err(e) => r == Err(e)
  }

  /** Every length handed to a skip is far below what a 32-bit int holds. */
  lemma SkipFits(count: nat, size: nat)
    requires count <= MAX_ARRAY_LEN && size <= 8
    ensures count * size < 0x8000_0000
  {
    assert count * size <= count * 8;
  }

  method Read(data: Bytes) returns (r: Result<Info, ReadError>)
    ensures r == InfoOf(data)
  {
    var br := new Reader(data);
    var h := br.ReadHeader();
    if h.Err? {
      return Err(h.error);
    }
    var metadata := br.ReadEntries(h.value.kvCount);
    return match metadata
      case Ok(m) => Ok(Info(h.value.version, h.value.tensorCount, m))
      case Err(e) => Err(e);
  }

  // ----- what is refused

  /** A header is accepted exactly when it has its magic, a version read, and no
      more entries than the limit. */
  lemma HeaderReads(data: Bytes)
    ensures HeaderOf(data).Ok? <==>
              |data| >= 24 && data[..4] == [71, 71, 85, 70]
              && 2 <= Unsigned(data[4..8]) <= 3 && Unsigned(data[16..24]) <= 0x1_0000
    ensures HeaderOf(data).Ok? ==>
              HeaderOf(data).value.version == Unsigned(data[4..8])
              && HeaderOf(data).value.tensorCount == Unsigned(data[8..16])
              && HeaderOf(data).value.kvCount == Unsigned(data[16..24])
  {
    if |data| >= 24 {
      LeAtIsUnsigned(data, 4, 4);
      LeAtIsUnsigned(data, 8, 8);
      LeAtIsUnsigned(data, 16, 8);
    }
  }

  /** No key and no text that is kept is longer than its limit. */
  ghost predicate Bounded(m: map<Bytes, Value>) {
    forall k :: k in m ==> |k| <= 0x1_0000 && (m[k].Str? ==> |m[k].s| <= 0x400_0000)
  }

  lemma EntryBounded(data: Bytes, pos: nat)
    requires EntryAt(data, pos).Ok?
    ensures var (key, v) := EntryAt(data, pos).value.0;
            |key| <= 0x1_0000 && (v.Some? && v.value.Str? ==> |v.value.s| <= 0x400_0000)
  {
  }

  lemma {:induction false} EntriesBounded(data: Bytes, pos: nat, count: nat, m: map<Bytes, Value>)
    requires Bounded(m) && EntriesAt(Entries(data), pos, count, m).Ok?
    ensures Bounded(EntriesAt(Entries(data), pos, count, m).value.0)
    decreases count
  {
    if count > 0 {
      var ((key, v), at) := EntryAt(data, pos).value;
      EntryBounded(data, pos);
      EntriesBounded(data, at, count - 1, With(m, key, v));
    }
  }

  /** Whatever the file says, what is read of it is within the limits. */
  lemma InfoBounded(data: Bytes)
    requires InfoOf(data).Ok?
    ensures Bounded(InfoOf(data).value.metadata)
  {
    EntriesBounded(data, HEADER_LEN, HeaderOf(data).value.kvCount, map[]);
  }

  // ----- appended bytes change nothing

  lemma NumberMore(data: Bytes, more: Bytes, pos: nat, k: nat)
    requires NumberAt(data, pos, k).Ok?
    ensures NumberAt(data + more, pos, k) == NumberAt(data, pos, k)
  {
    SameBytes(data + more, pos, data, pos, k);
  }

  lemma StringMore(data: Bytes, more: Bytes, pos: nat, limit: nat)
    requires StringAt(data, pos, limit).Ok?
    ensures StringAt(data + more, pos, limit) == StringAt(data, pos, limit)
  {
    NumberMore(data, more, pos, 8);
    var (n, at) := NumberAt(data, pos, 8).value;
    assert (data + more)[at..at + n] == data[at..at + n];
  }

  lemma {:induction false} SkipStringsMore(data: Bytes, more: Bytes, pos: nat, count: nat)
    requires SkipStringsAt(data, pos, count).Ok?
    ensures SkipStringsAt(data + more, pos, count) == SkipStringsAt(data, pos, count)
    decreases count
  {
    if count > 0 {
      StringMore(data, more, pos, MAX_STRING_LEN);
      SkipStringsMore(data, more, StringAt(data, pos, MAX_STRING_LEN).value.1, count - 1);
    }
  }

  lemma ValueMore(data: Bytes, more: Bytes, pos: nat, vt: nat)
    requires ValueAt(data, pos, vt).Ok?
    ensures ValueAt(data + more, pos, vt) == ValueAt(data, pos, vt)
  {
    if ScalarSize(vt).Some? {
      NumberMore(data, more, pos, ScalarSize(vt).value);
    } else if vt == TYPE_STRING {
      StringMore(data, more, pos, MAX_STRING_LEN);
    } else {
      ArrayMore(data, more, pos);
    }
  }

  lemma ArrayMore(data: Bytes, more: Bytes, pos: nat)
    requires SkipArrayAt(data, pos).Ok?
    ensures SkipArrayAt(data + more, pos) == SkipArrayAt(data, pos)
  {
    NumberMore(data, more, pos, 4);
    var (elem, at) := NumberAt(data, pos, 4).value;
    NumberMore(data, more, at, 8);
    var (count, from) := NumberAt(data, at, 8).value;
    if ScalarSize(elem).None? {
      SkipStringsMore(data, more, from, count);
    }
  }

  lemma EntryMore(data: Bytes, more: Bytes, pos: nat)
    requires EntryAt(data, pos).Ok?
    ensures EntryAt(data + more, pos) == EntryAt(data, pos)
  {
    StringMore(data, more, pos, MAX_KEY_LEN);
    var (key, at) := StringAt(data, pos, MAX_KEY_LEN).value;
    NumberMore(data, more, at, 4);
    var (vt, from) := NumberAt(data, at, 4).value;
    ValueMore(data, more, from, vt);
  }

  lemma {:induction false} EntriesMore(read: EntryReader, more: EntryReader, pos: nat, count: nat, m: map<Bytes, Value>)
    requires forall p :: read(p).Ok? ==> more(p) == read(p)
    requires EntriesAt(read, pos, count, m).Ok?
    ensures EntriesAt(more, pos, count, m) == EntriesAt(read, pos, count, m)
    decreases count
  {
    if count > 0 {
      var ((key, v), at) := read(pos).value;
      EntriesMore(read, more, at, count - 1, With(m, key, v));
    }
  }

  /** An accepted header reads the same whatever follows it. */
  lemma AppendedBytesIgnored(data: Bytes, more: Bytes)
    requires InfoOf(data).Ok?
    ensures InfoOf(data + more) == InfoOf(data)
  {
    assert (data + more)[..4] == data[..4];
    NumberMore(data, more, 4, 4);
    NumberMore(data, more, 8, 8);
    NumberMore(data, more, 16, 8);
    forall p: nat | Entries(data)(p).Ok?
      ensures Entries(data + more)(p) == Entries(data)(p)
    {
      EntryMore(data, more, p);
    }
    EntriesMore(Entries(data), Entries(data + more), HEADER_LEN, HeaderOf(data).value.kvCount, map[]);
  }

  // ----- the writer

  /** What an entry may hold. The first six are what the builder writes; the last
      two are the other scalars of the format, and arrays of any scalar, each as
      the bytes that write it. */
  datatype BuildValue =
    | Text(s: Bytes) | U32(n32: nat) | U64(n64: nat) | F32(bits: nat) | Flag(b: bool) | Texts(ss: seq<Bytes>)
    | Scalar(t: nat, raw: Bytes) | Scalars(elem: nat, items: seq<Bytes>)
  {
    /** The builder panics on any other. */
    predicate Buildable() {
      !Scalar? && !Scalars?
    }
  }

  datatype KV = KV(key: Bytes, vt: nat, value: BuildValue)

  function StringBytes(s: Bytes): Bytes {
    Le(|s|, 8) + s
  }

  /** The first n parts, one after another. */
  function Concat(parts: seq<Bytes>, n: nat): Bytes
    requires n <= |parts|
    decreases parts, n
  {
    if n == 0 then [] else Concat(parts, n - 1) + parts[n - 1]
  }

  function StringParts(ss: seq<Bytes>): (parts: seq<Bytes>)
    ensures |parts| == |ss|
    decreases |ss|
  {
    if ss == [] then [] else [StringBytes(ss[0])] + StringParts(ss[1..])
  }

  lemma {:induction false} StringPart(ss: seq<Bytes>, k: nat)
    requires k < |ss|
    ensures StringParts(ss)[k] == StringBytes(ss[k])
    decreases k
  {
    if k > 0 {
      StringPart(ss[1..], k - 1);
    }
  }

  function StringsBytes(ss: seq<Bytes>): Bytes {
    Concat(StringParts(ss), |ss|)
  }

  function ValueBytes(v: BuildValue): Bytes {
    match v
    case Text(s) => StringBytes(s)
    case U32(n) => Le(n, 4)
    case U64(n) => Le(n, 8)
    case F32(bits) => Le(bits, 4)
    case Flag(b) => [if b then 1 else 0]
    case Texts(ss) => Le(8, 4) + (Le(|ss|, 8) + StringsBytes(ss))
    case Scalar(_, raw) => raw
    case Scalars(elem, items) => Le(elem, 4) + (Le(|items|, 8) + Concat(items, |items|))
  }

  function EntryBytes(kv: KV): Bytes {
    StringBytes(kv.key) + (Le(kv.vt, 4) + ValueBytes(kv.value))
  }

  function EntryParts(kvs: seq<KV>): (parts: seq<Bytes>)
    ensures |parts| == |kvs|
    decreases |kvs|
  {
    if kvs == [] then [] else [EntryBytes(kvs[0])] + EntryParts(kvs[1..])
  }

  lemma {:induction false} EntryPart(kvs: seq<KV>, k: nat)
    requires k < |kvs|
    ensures EntryParts(kvs)[k] == EntryBytes(kvs[k])
    decreases k
  {
    if k > 0 {
      EntryPart(kvs[1..], k - 1);
    }
  }

  function EntriesBytes(kvs: seq<KV>): Bytes {
    Concat(EntryParts(kvs), |kvs|)
  }

  function HeaderBytes(version: nat, tensorCount: nat, count: nat): Bytes {
    MAGIC + (Le(version, 4) + (Le(tensorCount, 8) + Le(count, 8)))
  }

  function FileBytes(version: nat, tensorCount: nat, kvs: seq<KV>, payload: Bytes): Bytes {
    HeaderBytes(version, tensorCount, |kvs|) + (EntriesBytes(kvs) + payload)
  }

  class Buffer {
    var bytes: Bytes

    constructor ()
      ensures bytes == []
    {
      bytes := [];
    }

    method Write(b: Bytes)
      modifies this
      ensures bytes == old(bytes) + b
    {
      bytes := bytes + b;
    }

    method WriteString(s: Bytes)
      modifies this
      ensures bytes == old(bytes) + StringBytes(s)
    {
      Write(Le(|s|, 8));
      Write(s);
      assert bytes == old(bytes) + StringBytes(s);
    }

    method WriteStrings(ss: seq<Bytes>)
      modifies this
      ensures bytes == old(bytes) + StringsBytes(ss)
    {
      for k := 0 to |ss|
        invariant bytes == old(bytes) + Concat(StringParts(ss), k)
      {
        WriteString(ss[k]);
        StringPart(ss, k);
        Joined(old(bytes), Concat(StringParts(ss), k), StringBytes(ss[k]));
      }
    }

    method WriteValue(v: BuildValue)
      requires v.Buildable()
      modifies this
      ensures bytes == old(bytes) + ValueBytes(v)
    {
      match v {
        case Text(s) => WriteString(s);
        case U32(n) => Write(Le(n, 4));
        case U64(n) => Write(Le(n, 8));
        case F32(bits) => Write(Le(bits, 4));
        case Flag(b) =>
          var x: byte := 0;
          if b {
            x := 1;
          }
          Write([x]);
        case Texts(ss) => WriteArray(ss);
      }
    }

    method WriteArray(ss: seq<Bytes>)
      modifies this
      ensures bytes == old(bytes) + ValueBytes(Texts(ss))
    {
      Write(Le(TYPE_STRING, 4));
      Write(Le(|ss|, 8));
      WriteStrings(ss);
      Grouped(old(bytes), Le(TYPE_STRING, 4), Le(|ss|, 8), StringsBytes(ss));
    }

    method WriteEntry(kv: KV)
      requires kv.value.Buildable()
      modifies this
      ensures bytes == old(bytes) + EntryBytes(kv)
    {
      WriteString(kv.key);
      Write(Le(kv.vt, 4));
      WriteValue(kv.value);
      Grouped(old(bytes), StringBytes(kv.key), Le(kv.vt, 4), ValueBytes(kv.value));
    }

    method WriteHeader(version: nat, tensorCount: nat, count: nat)
      modifies this
      ensures bytes == old(bytes) + HeaderBytes(version, tensorCount, count)
    {
      Write(MAGIC);
      Write(Le(version, 4));
      Write(Le(tensorCount, 8));
      Write(Le(count, 8));
      Grouped(old(bytes) + MAGIC, Le(version, 4), Le(tensorCount, 8), Le(count, 8));
      var rest := Le(version, 4) + (Le(tensorCount, 8) + Le(count, 8));
      assert old(bytes) + MAGIC + rest == old(bytes) + (MAGIC + rest);
    }

    method WriteEntries(kvs: seq<KV>)
      requires forall kv :: kv in kvs ==> kv.value.Buildable()
      modifies this
      ensures bytes == old(bytes) + EntriesBytes(kvs)
    {
      ghost var start := bytes;
      for k := 0 to |kvs|
        invariant bytes == start + Concat(EntryParts(kvs), k)
      {
        WriteEntry(kvs[k]);
        EntryPart(kvs, k);
        Joined(start, Concat(EntryParts(kvs), k), EntryBytes(kvs[k]));
      }
    }
  }

  lemma Joined(a: Bytes, b: Bytes, c: Bytes)
    ensures a + b + c == a + (b + c)
  {
  }

  lemma Grouped(a: Bytes, b: Bytes, c: Bytes, d: Bytes)
    ensures a + b + c + d == a + (b + (c + d))
  {
  }

  method Build(version: nat, tensorCount: nat, kvs: seq<KV>, payload: Bytes) returns (r: Bytes)
    requires forall kv :: kv in kvs ==> kv.value.Buildable()
    ensures r == FileBytes(version, tensorCount, kvs, payload)
  {
    var b := new Buffer();
    b.WriteHeader(version, tensorCount, |kvs|);
    b.WriteEntries(kvs);
    b.Write(payload);
    r := b.bytes;
    Grouped([], HeaderBytes(version, tensorCount, |kvs|), EntriesBytes(kvs), payload);
    assert [] + HeaderBytes(version, tensorCount, |kvs|) == HeaderBytes(version, tensorCount, |kvs|);
  }

  // ----- the round trip

  /** How many bytes each scalar type of the format takes; none for the others. */
  ghost function Width(t: nat): nat {
    if t == 0 || t == 1 || t == 7 then 1
    else if t == 2 || t == 3 then 2
    else if t == 4 || t == 5 || t == 6 then 4
    else if t == 10 || t == 11 || t == 12 then 8
    else 0
  }

  ghost function ByteAt(b: Bytes, i: nat): int
    requires i < |b|
  {
    b[i]
  }

  /** The number that four little-endian bytes write, place by place. */
  ghost function Four(b: Bytes, i: nat): int
    requires i + 4 <= |b|
  {
    ByteAt(b, i) + 0x100 * ByteAt(b, i + 1) + 0x1_0000 * ByteAt(b, i + 2) + 0x100_0000 * ByteAt(b, i + 3)
  }

  /** And that one, two, four or eight do. */
  ghost function Unsigned(b: Bytes): int {
    match |b|
    case 1 => ByteAt(b, 0)
    case 2 => ByteAt(b, 0) + 0x100 * ByteAt(b, 1)
    case 4 => Four(b, 0)
    case 8 => Four(b, 0) + 0x1_0000_0000 * Four(b, 4)
    case _ => 0
  }

  /** The same read as two's complement. */
  ghost function TwosComplement(b: Bytes): int {
    var n := Unsigned(b);
    match |b|
    case 1 => if n < 0x80 then n else n - 0x100
    case 2 => if n < 0x8000 then n else n - 0x1_0000
    case 4 => if n < 0x8000_0000 then n else n - 0x1_0000_0000
    case 8 => if n < 0x8000_0000_0000_0000 then n else n - 0x1_0000_0000_0000_0000
    case _ => 0
  }

  lemma UnsignedIsNat(b: Bytes)
    ensures Unsigned(b) >= 0
  {
  }

  /** What the bytes of a scalar mean, type by type. */
  ghost function ScalarMeaning(t: nat, raw: Bytes): Value {
    UnsignedIsNat(raw);
    if t == 7 then Bool(Unsigned(raw) != 0)
    else if t == 1 || t == 3 || t == 5 || t == 11 then Int(TwosComplement(raw))
    else if t == 6 then Float32(Unsigned(raw))
    else if t == 12 then Float64(Unsigned(raw))
    else Uint(Unsigned(raw))
  }

  /** The type an entry states is the one its value is written as, and all of
      it is within the reader's limits. */
  ghost predicate Consistent(kv: KV) {
    && |kv.key| <= 0x1_0000
    && match kv.value
       case Text(s) => kv.vt == 8 && |s| <= 0x400_0000
       case U32(n) => kv.vt == 4 && n < 0x1_0000_0000
       case U64(n) => kv.vt == 10 && n < 0x1_0000_0000_0000_0000
       case F32(bits) => kv.vt == 6 && bits < 0x1_0000_0000
       case Flag(_) => kv.vt == 7
       case Texts(ss) =>
         kv.vt == 9 && |ss| <= 0x400_0000 && AllShort(ss)
       case Scalar(t, raw) => kv.vt == t && |raw| == Width(t) > 0
       case Scalars(elem, items) =>
         kv.vt == 9 && |items| <= 0x400_0000 && Width(elem) > 0 && AllWide(items, Width(elem))
  }

  ghost predicate AllShort(ss: seq<Bytes>) {
    forall k :: 0 <= k < |ss| ==> |ss[k]| <= 0x400_0000
  }

  ghost predicate AllWide(items: seq<Bytes>, w: nat) {
    forall k :: 0 <= k < |items| ==> |items[k]| == w
  }

  ghost predicate AllConsistent(kvs: seq<KV>) {
    forall kv :: kv in kvs ==> Consistent(kv)
  }

  ghost function Meaning(v: BuildValue): Option<Value> {
    match v
    case Text(s) => Some(Str(s))
    case U32(n) => Some(Uint(n))
    case U64(n) => Some(Uint(n))
    case F32(bits) => Some(Float32(bits))
    case Flag(b) => Some(Bool(b))
    case Texts(_) => None
    case Scalar(t, raw) => Some(ScalarMeaning(t, raw))
    case Scalars(_, _) => None
  }

  /** The last value, among the first n entries, of each key that is not an array. */
  ghost function LastValues(kvs: seq<KV>, n: nat): map<Bytes, Value>
    requires n <= |kvs|
    decreases kvs, n
  {
    if n == 0 then map[] else With(LastValues(kvs, n - 1), kvs[n - 1].key, Meaning(kvs[n - 1].value))
  }

  ghost predicate Has(data: Bytes, pos: nat, b: Bytes) {
    pos + |b| <= |data| && data[pos..pos + |b|] == b
  }

  lemma HasParts(data: Bytes, pos: nat, a: Bytes, b: Bytes)
    requires Has(data, pos, a + b)
    ensures Has(data, pos, a) && Has(data, pos + |a|, b)
  {
    var both := data[pos..pos + |a + b|];
    assert both[..|a|] == a && both[|a|..] == b;
    assert data[pos..pos + |a|] == both[..|a|];
    assert data[pos + |a|..pos + |a| + |b|] == both[|a|..];
  }

  lemma Limits()
    ensures Pow256(1) == 256 && Pow256(2) == 0x1_0000 && Pow256(4) == 0x1_0000_0000 && Pow256(8) == 0x1_0000_0000_0000_0000
  {
    assert Pow256(2) == 65536;
    assert Pow256(3) == 256 * 65536;
    assert Pow256(5) == 256 * Pow256(4);
    assert Pow256(6) == 256 * Pow256(5);
    assert Pow256(7) == 256 * Pow256(6);
  }

  lemma NumberBack(data: Bytes, pos: nat, n: nat, k: nat)
    requires Has(data, pos, Le(n, k)) && n < Pow256(k)
    ensures NumberAt(data, pos, k) == Ok((n, pos + k))
  {
    LeReads(data, pos, n, k);
  }

  lemma StringBack(data: Bytes, pos: nat, s: Bytes, limit: nat)
    requires Has(data, pos, StringBytes(s)) && |s| <= limit <= MAX_STRING_LEN
    ensures StringAt(data, pos, limit) == Ok((s, pos + |StringBytes(s)|))
  {
    Limits();
    HasParts(data, pos, Le(|s|, 8), s);
    NumberBack(data, pos, |s|, 8);
    assert data[pos + 8..pos + 8 + |s|] == s;
  }

  lemma {:induction false} ConcatWithin(data: Bytes, pos: nat, parts: seq<Bytes>, i: nat, n: nat)
    requires i < n <= |parts| && Has(data, pos, Concat(parts, n))
    ensures Has(data, Start(pos, parts, i), parts[i])
    decreases n
  {
    HasParts(data, pos, Concat(parts, n - 1), parts[n - 1]);
    if i < n - 1 {
      ConcatWithin(data, pos, parts, i, n - 1);
    }
  }

  /** Where the part after the first n starts. */
  function Start(pos: nat, parts: seq<Bytes>, n: nat): nat
    requires n <= |parts|
  {
    pos + |Concat(parts, n)|
  }

  lemma StartNext(pos: nat, parts: seq<Bytes>, n: nat)
    requires n < |parts|
    ensures Start(pos, parts, n + 1) == Start(pos, parts, n) + |parts[n]|
  {
  }

  /** Wherever b stands in the data, it reads as the string s. */
  ghost predicate StringReads(data: Bytes, b: Bytes, s: Bytes) {
    forall p: nat :: Has(data, p, b) ==> StringAt(data, p, MAX_STRING_LEN) == Ok((s, p + |b|))
  }

  ghost predicate StringLies(data: Bytes, pos: nat, parts: seq<Bytes>, ss: seq<Bytes>, i: nat)
    requires i < |ss| == |parts|
  {
    StringAt(data, Start(pos, parts, i), MAX_STRING_LEN) == Ok((ss[i], Start(pos, parts, i + 1)))
  }

  lemma StringPartLies(data: Bytes, pos: nat, parts: seq<Bytes>, ss: seq<Bytes>, i: nat)
    requires i < |ss| == |parts| && Has(data, pos, Concat(parts, |parts|)) && StringReads(data, parts[i], ss[i])
    ensures StringLies(data, pos, parts, ss, i)
  {
    ConcatWithin(data, pos, parts, i, |ss|);
  }

  ghost predicate AllLie(data: Bytes, pos: nat, parts: seq<Bytes>, ss: seq<Bytes>) {
    |ss| == |parts| && forall k :: 0 <= k < |ss| ==> StringLies(data, pos, parts, ss, k)
  }

  ghost predicate SkipsTo(data: Bytes, pos: nat, count: nat, after: nat) {
    SkipStringsAt(data, pos, count) == Ok(((), after))
  }

  lemma {:induction false} StringsBack(data: Bytes, pos: nat, parts: seq<Bytes>, ss: seq<Bytes>, i: nat)
    requires i <= |ss| && AllLie(data, pos, parts, ss)
    ensures SkipsTo(data, Start(pos, parts, i), |ss| - i, Start(pos, parts, |ss|))
    decreases |ss| - i
  {
    if i < |ss| {
      assert StringLies(data, pos, parts, ss, i);
      StringsBack(data, pos, parts, ss, i + 1);
    }
  }

  lemma WrittenStringReads(data: Bytes, ss: seq<Bytes>, k: nat)
    requires k < |ss| && |ss[k]| <= MAX_STRING_LEN
    ensures StringReads(data, StringParts(ss)[k], ss[k])
  {
    var s := ss[k];
    StringPart(ss, k);
    forall p: nat | Has(data, p, StringBytes(s))
      ensures StringAt(data, p, MAX_STRING_LEN) == Ok((s, p + |StringBytes(s)|))
    {
      StringBack(data, p, s, MAX_STRING_LEN);
    }
  }

  ghost predicate EachStringReads(data: Bytes, parts: seq<Bytes>, ss: seq<Bytes>) {
    |ss| == |parts| && forall k :: 0 <= k < |ss| ==> StringReads(data, parts[k], ss[k])
  }

  lemma WrittenEachRead(data: Bytes, ss: seq<Bytes>)
    requires AllShort(ss)
    ensures EachStringReads(data, StringParts(ss), ss)
  {
    forall k | 0 <= k < |ss|
      ensures StringReads(data, StringParts(ss)[k], ss[k])
    {
      WrittenStringReads(data, ss, k);
    }
  }

  lemma WrittenStringsRead(data: Bytes, pos: nat, ss: seq<Bytes>)
    requires Has(data, pos, StringsBytes(ss)) && AllShort(ss)
    ensures SkipsTo(data, pos, |ss|, pos + |StringsBytes(ss)|)
  {
    var parts := StringParts(ss);
    WrittenEachRead(data, ss);
    AllStringsBack(data, pos, parts, ss);
  }

  lemma EachLies(data: Bytes, pos: nat, parts: seq<Bytes>, ss: seq<Bytes>)
    requires EachStringReads(data, parts, ss) && Has(data, pos, Concat(parts, |parts|))
    ensures AllLie(data, pos, parts, ss)
  {
    forall k | 0 <= k < |ss|
      ensures StringLies(data, pos, parts, ss, k)
    {
      StringPartLies(data, pos, parts, ss, k);
    }
  }

  lemma AllStringsBack(data: Bytes, pos: nat, parts: seq<Bytes>, ss: seq<Bytes>)
    requires EachStringReads(data, parts, ss) && Has(data, pos, Concat(parts, |parts|))
    ensures SkipsTo(data, pos, |ss|, pos + |Concat(parts, |ss|)|)
  {
    EachLies(data, pos, parts, ss);
    StringsBack(data, pos, parts, ss, 0);
    assert Start(pos, parts, 0) == pos;
  }

  /** An array's bytes: the element type, the count, the elements. */
  lemma ArrayParts(data: Bytes, pos: nat, elem: nat, n: nat, body: Bytes)
    requires Has(data, pos, Le(elem, 4) + (Le(n, 8) + body))
    ensures Has(data, pos, Le(elem, 4)) && Has(data, pos + 4, Le(n, 8)) && Has(data, pos + 12, body)
    ensures |Le(elem, 4) + (Le(n, 8) + body)| == 12 + |body|
  {
    HasParts(data, pos, Le(elem, 4), Le(n, 8) + body);
    HasParts(data, pos + 4, Le(n, 8), body);
  }

  ghost predicate ElementsEnd(data: Bytes, pos: nat, elem: nat, count: nat, after: nat) {
    SkipElementsAt(data, pos, elem, count) == Ok(((), after))
  }

  ghost predicate ArrayEnds(data: Bytes, pos: nat, after: nat) {
    SkipArrayAt(data, pos) == Ok(((), after))
  }

  lemma ArrayMeans(data: Bytes, pos: nat, elem: nat, n: nat, after: nat)
    requires NumberAt(data, pos, 4) == Ok((elem, pos + 4)) && NumberAt(data, pos + 4, 8) == Ok((n, pos + 12))
    requires ElementsEnd(data, pos + 12, elem, n, after)
    ensures ArrayEnds(data, pos, after)
  {
  }

  lemma ElemBack(data: Bytes, pos: nat, elem: nat)
    requires elem < 256 && Has(data, pos, Le(elem, 4))
    ensures NumberAt(data, pos, 4) == Ok((elem, pos + 4))
  {
    Limits();
    NumberBack(data, pos, elem, 4);
  }

  lemma TextsSkipped(data: Bytes, pos: nat, ss: seq<Bytes>)
    requires Has(data, pos, StringsBytes(ss)) && |ss| <= 0x400_0000 && AllShort(ss)
    ensures ElementsEnd(data, pos, 8, |ss|, pos + |StringsBytes(ss)|)
  {
    WrittenStringsRead(data, pos, ss);
  }

  lemma ArrayPiecesBack(data: Bytes, pos: nat, elem: nat, n: nat, after: nat)
    requires elem < 256 && n <= 0x400_0000
    requires Has(data, pos, Le(elem, 4)) && Has(data, pos + 4, Le(n, 8)) && ElementsEnd(data, pos + 12, elem, n, after)
    ensures ArrayEnds(data, pos, after)
  {
    ElemBack(data, pos, elem);
    CountBack(data, pos + 4, n);
    ArrayMeans(data, pos, elem, n, after);
  }

  lemma ArrayBack(data: Bytes, pos: nat, ss: seq<Bytes>)
    requires Has(data, pos, ValueBytes(Texts(ss))) && |ss| <= 0x400_0000 && AllShort(ss)
    ensures ArrayEnds(data, pos, pos + |ValueBytes(Texts(ss))|)
  {
    ArrayParts(data, pos, 8, |ss|, StringsBytes(ss));
    TextsSkipped(data, pos + 12, ss);
    ArrayPiecesBack(data, pos, 8, |ss|, pos + 12 + |StringsBytes(ss)|);
  }

  lemma CountBack(data: Bytes, pos: nat, n: nat)
    requires n <= MAX_ARRAY_LEN && Has(data, pos, Le(n, 8))
    ensures NumberAt(data, pos, 8) == Ok((n, pos + 8))
  {
    Limits();
    NumberBack(data, pos, n, 8);
  }

  // ----- scalars, and arrays of them

  lemma LeAtIsUnsigned(data: Bytes, pos: nat, k: nat)
    requires pos + k <= |data| && (k == 1 || k == 2 || k == 4 || k == 8)
    ensures LeAt(data, pos, k) == Unsigned(data[pos..pos + k])
  {
    var b := data[pos..pos + k];
    SameBytes(data, pos, b, 0, k);
    if k == 1 {
      LeAtOne(b, 0);
    } else if k == 2 {
      LeAtTwo(b, 0);
    } else if k == 4 {
      LeAtFour(b, 0);
    } else {
      LeAtEight(b);
    }
  }

  lemma LeAtOne(b: Bytes, at: nat)
    requires at + 1 <= |b|
    ensures LeAt(b, at, 1) == ByteAt(b, at)
  {
    assert LeAt(b, at + 1, 0) == 0;
  }

  lemma LeAtTwo(b: Bytes, at: nat)
    requires at + 2 <= |b|
    ensures LeAt(b, at, 2) == ByteAt(b, at) + 0x100 * ByteAt(b, at + 1)
  {
    LeAtOne(b, at + 1);
  }

  lemma LeAtFour(b: Bytes, at: nat)
    requires at + 4 <= |b|
    ensures LeAt(b, at, 4) == Four(b, at)
  {
    LeAtTwo(b, at + 2);
    assert LeAt(b, at + 1, 3) == ByteAt(b, at + 1) + 0x100 * LeAt(b, at + 2, 2);
  }

  lemma LeAtEight(b: Bytes)
    requires |b| == 8
    ensures LeAt(b, 0, 8) == Unsigned(b)
  {
    LeAtFour(b, 4);
    assert LeAt(b, 3, 5) == ByteAt(b, 3) + 0x100 * LeAt(b, 4, 4);
    assert LeAt(b, 2, 6) == ByteAt(b, 2) + 0x100 * LeAt(b, 3, 5);
    assert LeAt(b, 1, 7) == ByteAt(b, 1) + 0x100 * LeAt(b, 2, 6);
    assert LeAt(b, 0, 8) == ByteAt(b, 0) + 0x100 * LeAt(b, 1, 7);
  }

  lemma ScalarSizes(t: nat)
    ensures ScalarSize(t) == if Width(t) > 0 then Some(Width(t)) else None
  {
  }

  /** Every scalar type is read at its own width, and means what its bytes write,
      place by place, in two's complement when it is signed. */
  lemma ScalarReads(data: Bytes, pos: nat, t: nat)
    requires Width(t) > 0
    ensures ValueAt(data, pos, t)
            == if pos + Width(t) <= |data| then Ok((Some(ScalarMeaning(t, data[pos..pos + Width(t)])), pos + Width(t)))
               else Err(Short)
  {
    ScalarSizes(t);
    if pos + Width(t) <= |data| {
      LeAtIsUnsigned(data, pos, Width(t));
      Limits();
    }
  }

  lemma {:induction false} ConcatLength(items: seq<Bytes>, w: nat, n: nat)
    requires n <= |items| && AllWide(items, w)
    ensures |Concat(items, n)| == n * w
    decreases n
  {
    if n > 0 {
      ConcatLength(items, w, n - 1);
    }
  }

  /** An array of any number of any scalar is skipped exactly. */
  lemma ScalarsSkipped(data: Bytes, pos: nat, elem: nat, items: seq<Bytes>)
    requires Width(elem) > 0 && |items| <= 0x400_0000 && AllWide(items, Width(elem))
    requires Has(data, pos, Concat(items, |items|))
    ensures ElementsEnd(data, pos, elem, |items|, pos + |Concat(items, |items|)|)
  {
    ScalarSizes(elem);
    ConcatLength(items, Width(elem), |items|);
  }

  lemma ScalarArrayBack(data: Bytes, pos: nat, elem: nat, items: seq<Bytes>)
    requires Width(elem) > 0 && |items| <= 0x400_0000 && AllWide(items, Width(elem))
    requires Has(data, pos, ValueBytes(Scalars(elem, items)))
    ensures ArrayEnds(data, pos, pos + |ValueBytes(Scalars(elem, items))|)
  {
    ArrayParts(data, pos, elem, |items|, Concat(items, |items|));
    ScalarsSkipped(data, pos + 12, elem, items);
    ArrayPiecesBack(data, pos, elem, |items|, pos + 12 + |Concat(items, |items|)|);
  }

  lemma ScalarBack(data: Bytes, pos: nat, t: nat, raw: Bytes)
    requires |raw| == Width(t) > 0 && Has(data, pos, raw)
    ensures ValueAt(data, pos, t) == Ok((Some(ScalarMeaning(t, raw)), pos + |raw|))
  {
    ScalarReads(data, pos, t);
    assert data[pos..pos + |raw|] == raw;
  }

  lemma FlagBack(data: Bytes, pos: nat, b: bool)
    requires Has(data, pos, ValueBytes(Flag(b)))
    ensures ValueAt(data, pos, 7) == Ok((Some(Bool(b)), pos + 1))
  {
    var n := if b then 1 else 0;
    assert Le(n, 1) == [n] + Le(0, 0);
    assert n < Pow256(1) by { Limits(); }
    NumberBack(data, pos, n, 1);
  }

  lemma NumericBack(data: Bytes, pos: nat, n: nat, t: nat)
    requires ((t == 4 || t == 6) && n < 0x1_0000_0000) || (t == 10 && n < 0x1_0000_0000_0000_0000)
    requires Has(data, pos, Le(n, Width(t)))
    ensures ValueAt(data, pos, t) == Ok((Some(if t == 6 then Float32(n) else Uint(n)), pos + Width(t)))
  {
    Limits();
    NumberBack(data, pos, n, Width(t));
  }

  lemma TextsValueBack(data: Bytes, pos: nat, ss: seq<Bytes>)
    requires Has(data, pos, ValueBytes(Texts(ss))) && |ss| <= 0x400_0000 && AllShort(ss)
    ensures ValueAt(data, pos, 9) == Ok((None, pos + |ValueBytes(Texts(ss))|))
  {
    ArrayBack(data, pos, ss);
    ArrayHasNoValue(data, pos, pos + |ValueBytes(Texts(ss))|);
  }

  lemma ScalarsValueBack(data: Bytes, pos: nat, elem: nat, items: seq<Bytes>)
    requires Width(elem) > 0 && |items| <= 0x400_0000 && AllWide(items, Width(elem))
    requires Has(data, pos, ValueBytes(Scalars(elem, items)))
    ensures ValueAt(data, pos, 9) == Ok((None, pos + |ValueBytes(Scalars(elem, items))|))
  {
    ScalarArrayBack(data, pos, elem, items);
    ArrayHasNoValue(data, pos, pos + |ValueBytes(Scalars(elem, items))|);
  }

  lemma ArrayHasNoValue(data: Bytes, pos: nat, after: nat)
    requires ArrayEnds(data, pos, after)
    ensures ValueAt(data, pos, 9) == Ok((None, after))
  {
  }

  lemma TextBack(data: Bytes, pos: nat, s: Bytes)
    requires |s| <= 0x400_0000 && Has(data, pos, StringBytes(s))
    ensures ValueAt(data, pos, 8) == Ok((Some(Str(s)), pos + |StringBytes(s)|))
  {
    StringBack(data, pos, s, MAX_STRING_LEN);
  }

  /** At pos stands a value that reads as what kv holds, and ends where its bytes
      do. */
  ghost predicate ValueReads(data: Bytes, pos: nat, kv: KV) {
    ValueAt(data, pos, kv.vt) == Ok((Meaning(kv.value), pos + |ValueBytes(kv.value)|))
  }

  lemma PlainBack(data: Bytes, pos: nat, kv: KV)
    requires kv.value.U32? || kv.value.U64? || kv.value.F32? || kv.value.Flag?
    requires Consistent(kv) && Has(data, pos, ValueBytes(kv.value))
    ensures ValueReads(data, pos, kv)
  {
    match kv.value
    case U32(n) => NumericBack(data, pos, n, 4);
    case U64(n) => NumericBack(data, pos, n, 10);
    case F32(bits) => NumericBack(data, pos, bits, 6);
    case Flag(b) => FlagBack(data, pos, b);
  }

  lemma TextOrScalarBack(data: Bytes, pos: nat, kv: KV)
    requires kv.value.Text? || kv.value.Scalar?
    requires Consistent(kv) && Has(data, pos, ValueBytes(kv.value))
    ensures ValueReads(data, pos, kv)
  {
    if kv.value.Text? {
      TextBack(data, pos, kv.value.s);
    } else {
      ScalarBack(data, pos, kv.vt, kv.value.raw);
    }
  }

  lemma SomeArrayBack(data: Bytes, pos: nat, kv: KV)
    requires kv.value.Texts? || kv.value.Scalars?
    requires Consistent(kv) && Has(data, pos, ValueBytes(kv.value))
    ensures ValueReads(data, pos, kv)
  {
    if kv.value.Texts? {
      TextsValueBack(data, pos, kv.value.ss);
    } else {
      ScalarsValueBack(data, pos, kv.value.elem, kv.value.items);
    }
  }

  lemma ValueBack(data: Bytes, pos: nat, kv: KV)
    requires Consistent(kv) && Has(data, pos, ValueBytes(kv.value))
    ensures ValueReads(data, pos, kv)
  {
    if kv.value.Texts? || kv.value.Scalars? {
      SomeArrayBack(data, pos, kv);
    } else if kv.value.Text? || kv.value.Scalar? {
      TextOrScalarBack(data, pos, kv);
    } else {
      PlainBack(data, pos, kv);
    }
  }

  lemma TypedValueBack(data: Bytes, pos: nat, kv: KV)
    requires Consistent(kv) && Has(data, pos, Le(kv.vt, 4) + ValueBytes(kv.value))
    ensures NumberAt(data, pos, 4) == Ok((kv.vt, pos + 4))
    ensures ValueReads(data, pos + 4, kv)
  {
    HasParts(data, pos, Le(kv.vt, 4), ValueBytes(kv.value));
    assert kv.vt < Pow256(4) by { Limits(); }
    NumberBack(data, pos, kv.vt, 4);
    ValueBack(data, pos + 4, kv);
  }

  ghost predicate ReadsAs(data: Bytes, pos: nat, kv: KV, after: nat) {
    EntryAt(data, pos) == Ok(((kv.key, Meaning(kv.value)), after))
  }

  lemma PartsRead(data: Bytes, pos: nat, kv: KV, at: nat, after: nat)
    requires StringAt(data, pos, MAX_KEY_LEN) == Ok((kv.key, at)) && NumberAt(data, at, 4) == Ok((kv.vt, at + 4))
    requires ValueReads(data, at + 4, kv) && after == at + 4 + |ValueBytes(kv.value)|
    ensures ReadsAs(data, pos, kv, after)
  {
  }

  lemma EntryBack(data: Bytes, pos: nat, kv: KV)
    requires Consistent(kv) && Has(data, pos, EntryBytes(kv))
    ensures ReadsAs(data, pos, kv, pos + |EntryBytes(kv)|)
  {
    HasParts(data, pos, StringBytes(kv.key), Le(kv.vt, 4) + ValueBytes(kv.value));
    EntryPiecesBack(data, pos, kv, pos + |StringBytes(kv.key)|);
  }

  lemma EntryPiecesBack(data: Bytes, pos: nat, kv: KV, at: nat)
    requires Consistent(kv) && at == pos + |StringBytes(kv.key)|
    requires Has(data, pos, StringBytes(kv.key)) && Has(data, at, Le(kv.vt, 4) + ValueBytes(kv.value))
    ensures ReadsAs(data, pos, kv, at + 4 + |ValueBytes(kv.value)|)
  {
    StringBack(data, pos, kv.key, MAX_KEY_LEN);
    TypedValueBack(data, at, kv);
    PartsRead(data, pos, kv, at, at + 4 + |ValueBytes(kv.value)|);
  }

  /** Wherever b stands in the data, it reads as the entry kv. */
  ghost predicate EntryReads(data: Bytes, read: EntryReader, b: Bytes, kv: KV) {
    forall p: nat :: Has(data, p, b) ==> read(p) == Ok(((kv.key, Meaning(kv.value)), p + |b|))
  }

  ghost predicate EachReads(data: Bytes, read: EntryReader, parts: seq<Bytes>, kvs: seq<KV>) {
    |parts| == |kvs| && forall k :: 0 <= k < |kvs| ==> EntryReads(data, read, parts[k], kvs[k])
  }

  ghost predicate EntryLies(read: EntryReader, pos: nat, parts: seq<Bytes>, kvs: seq<KV>, i: nat)
    requires i < |kvs| == |parts|
  {
    read(Start(pos, parts, i)) == Ok(((kvs[i].key, Meaning(kvs[i].value)), Start(pos, parts, i + 1)))
  }

  lemma EntryPartLies(data: Bytes, read: EntryReader, pos: nat, parts: seq<Bytes>, kvs: seq<KV>, i: nat)
    requires i < |kvs| == |parts| && EntryReads(data, read, parts[i], kvs[i]) && Has(data, pos, Concat(parts, |parts|))
    ensures EntryLies(read, pos, parts, kvs, i)
  {
    var p, b := Start(pos, parts, i), parts[i];
    assert read(p) == Ok(((kvs[i].key, Meaning(kvs[i].value)), p + |b|)) by {
      ConcatWithin(data, pos, parts, i, |kvs|);
      ReadsAt(data, read, b, kvs[i], p);
    }
    StartNext(pos, parts, i);
  }

  lemma ReadsAt(data: Bytes, read: EntryReader, b: Bytes, kv: KV, p: nat)
    requires EntryReads(data, read, b, kv) && Has(data, p, b)
    ensures read(p) == Ok(((kv.key, Meaning(kv.value)), p + |b|))
  {
  }

  lemma {:induction false} EntriesBack(read: EntryReader, pos: nat, parts: seq<Bytes>, kvs: seq<KV>, i: nat)
    requires i <= |kvs| == |parts| && forall k :: 0 <= k < |kvs| ==> EntryLies(read, pos, parts, kvs, k)
    ensures EntriesAt(read, Start(pos, parts, i), |kvs| - i, LastValues(kvs, i))
            == Ok((LastValues(kvs, |kvs|), Start(pos, parts, |kvs|)))
    decreases |kvs| - i
  {
    if i < |kvs| {
      assert EntryLies(read, pos, parts, kvs, i);
      EntriesBack(read, pos, parts, kvs, i + 1);
    }
  }

  lemma WrittenEntryReads(data: Bytes, kv: KV)
    requires Consistent(kv)
    ensures EntryReads(data, Entries(data), EntryBytes(kv), kv)
  {
    forall p: nat | Has(data, p, EntryBytes(kv))
      ensures Entries(data)(p) == Ok(((kv.key, Meaning(kv.value)), p + |EntryBytes(kv)|))
    {
      EntryBack(data, p, kv);
    }
  }

  lemma WrittenEntriesRead(data: Bytes, kvs: seq<KV>)
    requires AllConsistent(kvs)
    ensures EachReads(data, Entries(data), EntryParts(kvs), kvs)
  {
    forall k | 0 <= k < |kvs|
      ensures EntryReads(data, Entries(data), EntryParts(kvs)[k], kvs[k])
    {
      EntryPart(kvs, k);
      WrittenEntryReads(data, kvs[k]);
    }
  }

  lemma AllEntriesBack(data: Bytes, read: EntryReader, pos: nat, parts: seq<Bytes>, kvs: seq<KV>)
    requires EachReads(data, read, parts, kvs) && Has(data, pos, Concat(parts, |parts|))
    ensures EntriesAt(read, pos, |kvs|, map[]) == Ok((LastValues(kvs, |kvs|), pos + |Concat(parts, |kvs|)|))
  {
    forall k | 0 <= k < |kvs|
      ensures EntryLies(read, pos, parts, kvs, k)
    {
      EntryPartLies(data, read, pos, parts, kvs, k);
    }
    EntriesBack(read, pos, parts, kvs, 0);
  }

  lemma HeaderBack(data: Bytes, version: nat, tensorCount: nat, count: nat)
    requires Has(data, 0, HeaderBytes(version, tensorCount, count))
    requires 2 <= version <= 3 && tensorCount < Pow256(8) && count <= MAX_KV_COUNT
    ensures HeaderOf(data) == Ok(Header(version, tensorCount, count))
  {
    Limits();
    HasParts(data, 0, MAGIC, Le(version, 4) + (Le(tensorCount, 8) + Le(count, 8)));
    HasParts(data, 4, Le(version, 4), Le(tensorCount, 8) + Le(count, 8));
    HasParts(data, 8, Le(tensorCount, 8), Le(count, 8));
    assert data[0..4] == data[..4];
    NumberBack(data, 4, version, 4);
    NumberBack(data, 8, tensorCount, 8);
    NumberBack(data, 16, count, 8);
  }

  /** Round trip, for all the format allows: a file of such entries reads back as
      written, whatever payload follows, with the last value of each key that is
      not an array. */
  lemma BuildReadsBack(version: nat, tensorCount: nat, kvs: seq<KV>, payload: Bytes)
    requires 2 <= version <= 3 && tensorCount < 0x1_0000_0000_0000_0000 && |kvs| <= 0x1_0000
    requires AllConsistent(kvs)
    ensures InfoOf(FileBytes(version, tensorCount, kvs, payload)) == Ok(Info(version, tensorCount, LastValues(kvs, |kvs|)))
  {
    var data := FileBytes(version, tensorCount, kvs, payload);
    FileParts(HeaderBytes(version, tensorCount, |kvs|), EntriesBytes(kvs), payload);
    assert tensorCount < Pow256(8) by { Limits(); }
    HeaderBack(data, version, tensorCount, |kvs|);
    FileEntriesBack(data, kvs);
    InfoMeans(data, Header(version, tensorCount, |kvs|), LastValues(kvs, |kvs|), HEADER_LEN + |EntriesBytes(kvs)|);
  }

  lemma FileParts(head: Bytes, entries: Bytes, payload: Bytes)
    requires |head| == HEADER_LEN
    ensures var data := head + (entries + payload);
            Has(data, 0, head) && Has(data, HEADER_LEN, entries)
  {
    var data := head + (entries + payload);
    HasParts(data, 0, head, entries + payload);
    HasParts(data, HEADER_LEN, entries, payload);
  }

  lemma FileEntriesBack(data: Bytes, kvs: seq<KV>)
    requires AllConsistent(kvs) && Has(data, HEADER_LEN, EntriesBytes(kvs))
    ensures EntriesAt(Entries(data), HEADER_LEN, |kvs|, map[])
            == Ok((LastValues(kvs, |kvs|), HEADER_LEN + |EntriesBytes(kvs)|))
  {
    WrittenEntriesRead(data, kvs);
    AllEntriesBack(data, Entries(data), HEADER_LEN, EntryParts(kvs), kvs);
  }

  lemma InfoMeans(data: Bytes, h: Header, m: map<Bytes, Value>, after: nat)
    requires HeaderOf(data) == Ok(h) && EntriesAt(Entries(data), HEADER_LEN, h.kvCount, map[]) == Ok((m, after))
    ensures InfoOf(data) == Ok(Info(h.version, h.tensorCount, m))
  {
  }

  /** What the last value of a key is: some entry states it, and no later
      entry of that key states another that is not an array. */
  lemma {:induction false} LastValuesMean(kvs: seq<KV>, n: nat, key: Bytes, v: Value)
    requires n <= |kvs|
    ensures (key in LastValues(kvs, n) && LastValues(kvs, n)[key] == v) <==> exists k :: StatesLast(kvs, n, key, v, k)
    decreases n
  {
    if n > 0 {
      var m, last := n - 1, kvs[n - 1];
      LastValuesMean(kvs, m, key, v);
      if k :| StatesLast(kvs, m, key, v, k) {
        assert (last.key == key && Meaning(last.value).Some?) || StatesLast(kvs, n, key, v, k);
      }
      if last.key == key && Meaning(last.value) == Some(v) {
        assert StatesLast(kvs, n, key, v, m);
      }
      if k :| StatesLast(kvs, n, key, v, k) {
        assert k == m || StatesLast(kvs, m, key, v, k);
      }
    }
  }

  /** Among the first n entries, entry k is the last of its key to state a value. */
  ghost predicate StatesLast(kvs: seq<KV>, n: nat, key: Bytes, v: Value, k: int)
    requires n <= |kvs|
  {
    && 0 <= k < n && kvs[k].key == key && Meaning(kvs[k].value) == Some(v)
    && forall j :: k < j < n && kvs[j].key == key ==> Meaning(kvs[j].value).None?
  }
}
