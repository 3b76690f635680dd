/** Signed tree heads: the note format a transparency log signs, what is read
    back out of it, and the printer that reading undoes. */

module Numbers {
  import opened Wrappers
  import opened Primitives

  predicate IsDigit(c: char) {
    '0' <= c <= '9'
  }

  function DigitValue(c: char): (d: nat)
    requires IsDigit(c)
    ensures d < 10
  {
    (c as int) - ('0' as int)
  }

  /** Decimal digits read most significant first. */
  function DigitsValue(s: string): Option<nat> {
    if s == "" then Some(0)
    else
      match DigitsValue(s[..|s| - 1])
      case Some(v) => if IsDigit(s[|s| - 1]) then Some(10 * v + DigitValue(s[|s| - 1])) else None
      case None => None
  }

  /** `strconv.ParseInt(s, 10, 64)`: an optional sign, at least one digit,
      nothing else, and a value that fits. */
  function ParseInt(s: string): Option<int64> {
    var negative := s != "" && s[0] == '-';
    var digits := if s != "" && (s[0] == '-' || s[0] == '+') then s[1..] else s;
    if digits == "" then None
    else
      match DigitsValue(digits)
      case None => None
      case Some(v) =>
        var x: int := if negative then 0 - v else v;
        if -0x8000_0000_0000_0000 <= x < 0x8000_0000_0000_0000 then Some(x) else None
  }

  function FormatNat(n: nat): (s: string)
    ensures |s| >= 1
    ensures forall k :: 0 <= k < |s| ==> IsDigit(s[k])
  {
    var last := ((n % 10) + ('0' as int)) as char;
    if n < 10 then [last] else FormatNat(n / 10) + [last]
  }

  lemma {:induction false} FormatReads(n: nat)
    ensures DigitsValue(FormatNat(n)) == Some(n)
  {
    var s := FormatNat(n);
    if n >= 10 {
      FormatReads(n / 10);
      assert s[..|s| - 1] == FormatNat(n / 10);
    } else {
      assert s[..0] == "";
    }
  }

  lemma ParseFormat(n: int64)
    requires n >= 0
    ensures ParseInt(FormatNat(n)) == Some(n)
  {
    FormatReads(n);
  }

  // ----- what digits say, place by place

  function Pow10(k: nat): nat {
    if k == 0 then 1 else 10 * Pow10(k - 1)
  }

  /** The sum of the digits, each at its place. */
  ghost function Places(s: string): int {
    if s == "" then 0 else ((s[0] as int) - 48) * Pow10(|s| - 1) + Places(s[1..])
  }

  ghost predicate AllDigits(s: string) {
    forall k :: 0 <= k < |s| ==> '0' <= s[k] <= '9'
  }

  lemma {:induction false} PlacesLast(s: string, c: char)
    ensures Places(s + [c]) == 10 * Places(s) + (c as int) - 48
  {
    var t := s + [c];
    if s == "" {
      assert t[1..] == "" && Pow10(0) == 1;
    } else {
      PlacesLast(s[1..], c);
      assert t[1..] == s[1..] + [c];
      assert Pow10(|s|) == 10 * Pow10(|s| - 1);
      TimesTen((s[0] as int) - 48, Pow10(|s| - 1));
    }
  }

  lemma TimesTen(a: int, b: int)
    ensures a * (10 * b) == 10 * (a * b)
  {
  }

  lemma {:induction false} DigitsArePlaces(s: string)
    ensures DigitsValue(s).Some? <==> AllDigits(s)
    ensures DigitsValue(s).Some? ==> DigitsValue(s).value == Places(s)
    decreases |s|
  {
    if s != "" {
      var (init, last) := (s[..|s| - 1], s[|s| - 1]);
      DigitsArePlaces(init);
      assert s == init + [last];
      PlacesLast(init, last);
    }
  }

  /** A number is printed in its digits and no others: no zero leads but zero's
      own. */
  lemma {:induction false} FormatsPlainly(n: nat)
    ensures AllDigits(FormatNat(n)) && Places(FormatNat(n)) == n
    ensures n > 0 ==> FormatNat(n)[0] != '0'
    ensures n == 0 ==> FormatNat(n) == "0"
    decreases n
  {
    FormatReads(n);
    DigitsArePlaces(FormatNat(n));
    if n >= 10 {
      FormatsPlainly(n / 10);
    }
  }

  /** A sign or none, then digits, one at least. */
  ghost predicate WritesNumber(s: string, x: int) {
    exists digits ::
      && AllDigits(digits) && digits != ""
      && ((x == Places(digits) && (s == digits || s == "+" + digits)) || (x == -Places(digits) && s == "-" + digits))
  }

  /** Read as a number is exactly what writes one of 64 bits. */
  lemma ParseIntReads(s: string, x: int64)
    ensures ParseInt(s) == Some(x) <==> WritesNumber(s, x)
  {
    var digits := if s != "" && (s[0] == '-' || s[0] == '+') then s[1..] else s;
    DigitsArePlaces(digits);
    assert s == digits || s == "+" + digits || s == "-" + digits;
    if WritesNumber(s, x) {
      var ds :| AllDigits(ds) && ds != ""
        && ((x == Places(ds) && (s == ds || s == "+" + ds)) || (x == -Places(ds) && s == "-" + ds));
      assert s != ds ==> s[1..] == ds;
      assert '0' <= ds[0] <= '9';
      assert ds == digits;
    }
  }
}

module Checkpoint {
  import opened Wrappers
  import opened Text
  import opened Numbers
  import opened Primitives

  /** Base64 as the checkpoint uses it. */
  datatype Base64 = Base64(encode: Bytes -> string, decode: string -> Option<Bytes>) {
    /** Decoding undoes encoding, and no encoding holds white space. */
    ghost predicate Lawful() {
      && (forall b :: decode(encode(b)) == Some(b))
      && (forall b :: forall k :: 0 <= k < |encode(b)| ==> !IsSpace(encode(b)[k]))
      && (forall b :: b != [] ==> encode(b) != "")
    }
  }

  /** Whether a signature over a text verifies under the log's key. */
  type Verifier = (string, Bytes) -> bool

  predicate IsSpace(c: char) {
    || '\t' <= c <= '\r' || c == ' ' || c == '\U{85}' || c == '\U{A0}' || c == '\U{1680}'
    || '\U{2000}' <= c <= '\U{200A}' || '\U{2028}' <= c <= '\U{2029}'
    || c == '\U{202F}' || c == '\U{205F}' || c == '\U{3000}'
  }

  const DASH := "\U{2014}"

  const KEY_HINT := 4

  function WordLen(s: string): (n: nat)
    ensures n <= |s|
    ensures forall k :: 0 <= k < n ==> !IsSpace(s[k])
    ensures n < |s| ==> IsSpace(s[n])
  {
    if s == "" || IsSpace(s[0]) then 0 else 1 + WordLen(s[1..])
  }

  /** `strings.Fields`: the runs of non-space characters. */
  function Fields(s: string): seq<string>
    decreases |s|
  {
    if s == "" then []
    else if IsSpace(s[0]) then Fields(s[1..])
    else [s[..WordLen(s)]] + Fields(s[WordLen(s)..])
  }

  function TrimNewlines(s: string): string {
    if s != "" && s[|s| - 1] == '\n' then TrimNewlines(s[..|s| - 1]) else s
  }

  datatype CheckpointError =
    | NoSignatureBlock | NoReadableSignature | NoneVerifies
    | NoRoot | SizeNotANumber | SizeNotPositive | RootNotBase64 | RootWrongSize

  /** The signature a line carries, when it is a signature line at all. */
  function LineSignature(b64: Base64, line: string): Option<Bytes> {
    var fields := Fields(line);
    if |fields| != 3 || fields[0] != DASH then None
    else
      match b64.decode(fields[2])
      case None => None
      case Some(raw) => if |raw| <= KEY_HINT then None else Some(raw[KEY_HINT..])
  }

  function SignatureLines(sigs: string): seq<string> {
    Split(TrimNewlines(sigs), '\n')
  }

  ghost predicate Readable(b64: Base64, lines: seq<string>) {
    exists k :: 0 <= k < |lines| && LineSignature(b64, lines[k]).Some?
  }

  ghost predicate Verifies(b64: Base64, verify: Verifier, text: string, line: string) {
    LineSignature(b64, line).Some? && verify(text, LineSignature(b64, line).value)
  }

  ghost predicate AnyVerifies(b64: Base64, verify: Verifier, text: string, lines: seq<string>) {
    exists k :: 0 <= k < |lines| && Verifies(b64, verify, text, lines[k])
  }

  /** Accepted exactly when some signature line verifies; a line that does not
      is a line for somebody else. */
  method VerifyAnyNoteSignature(b64: Base64, verify: Verifier, text: string, sigs: string)
    returns (e: Option<CheckpointError>)
    ensures e == SignatureFault(b64, verify, text, SignatureLines(sigs))
  {
    var found := false;
    var lines := SignatureLines(sigs);
    for k := 0 to |lines|
      invariant !AnyVerifies(b64, verify, text, lines[..k])
      invariant found <==> Readable(b64, lines[..k])
    {
      assert lines[..k + 1][..k] == lines[..k];
      assert forall j :: 0 <= j < k ==> lines[..k][j] == lines[..k + 1][j];
      var sig := LineSignature(b64, lines[k]);
      if sig.None? {
        continue;
      }
      assert lines[..k + 1][k] == lines[k];
      found := true;
      if verify(text, sig.value) {
        return None;
      }
    }
    assert lines[..|lines|] == lines;
    return if found then Some(NoneVerifies) else Some(NoReadableSignature);
  }

  ghost function SignatureFault(b64: Base64, verify: Verifier, text: string, lines: seq<string>)
    : Option<CheckpointError>
  {
    if AnyVerifies(b64, verify, text, lines) then None
    else if Readable(b64, lines) then Some(NoneVerifies)
    else Some(NoReadableSignature)
  }

  /** The root and size a signed text states. */
  function ReadText(b64: Base64, text: string): Result<(Bytes, int64), CheckpointError> {
    var lines := Split(text, '\n');
    if |lines| < 4 then Err(NoRoot)
    else
      match ParseInt(lines[1])
      case None => Err(SizeNotANumber)
      case Some(size) =>
        if size <= 0 then Err(SizeNotPositive)
        else
          match b64.decode(lines[2])
          case None => Err(RootNotBase64)
          case Some(root) => if |root| != HASH_SIZE then Err(RootWrongSize) else Ok((root, size))
  }

  /** The text and the signature block of an envelope. */
  function Opened(envelope: string): Option<(string, string)> {
    var split := LastIndex(envelope, "\n\n");
    if split < 0 then None else Some((envelope[..split + 1], envelope[split + 2..]))
  }

  ghost function AnswerFor(b64: Base64, verify: Verifier, text: string, lines: seq<string>)
    : Result<(Bytes, int64), CheckpointError>
  {
    match SignatureFault(b64, verify, text, lines)
    case Some(e) => Err(e)
    case None => ReadText(b64, text)
  }

  ghost function Answer(b64: Base64, verify: Verifier, envelope: string): Result<(Bytes, int64), CheckpointError> {
    match Opened(envelope)
    case None => Err(NoSignatureBlock)
    case Some((text, sigs)) => AnswerFor(b64, verify, text, SignatureLines(sigs))
  }

  method VerifyCheckpoint(b64: Base64, verify: Verifier, envelope: string)
    returns (r: Result<(Bytes, int64), CheckpointError>)
    ensures r == Answer(b64, verify, envelope)
  {
    var parts := Opened(envelope);
    if parts.None? {
      return Err(NoSignatureBlock);
    }
    var (text, sigs) := parts.value;
    var e := VerifyAnyNoteSignature(b64, verify, text, sigs);
    if e.Some? {
      return Err(e.value);
    }
    return ReadText(b64, text);
  }

  // ----- what a text and a signature line state

  /** The code points of Unicode's White_Space property. */
  ghost predicate Blank(c: char) {
    c as int in {0x9, 0xA, 0xB, 0xC, 0xD, 0x20, 0x85, 0xA0, 0x1680, 0x2000, 0x2001, 0x2002, 0x2003, 0x2004, 0x2005,
                 0x2006, 0x2007, 0x2008, 0x2009, 0x200A, 0x2028, 0x2029, 0x202F, 0x205F, 0x3000}
  }

  lemma SpaceIsBlank(c: char)
    ensures IsSpace(c) <==> Blank(c)
  {
  }

  ghost predicate AllBlank(s: string) {
    forall k :: 0 <= k < |s| ==> Blank(s[k])
  }

  ghost predicate IsWord(w: string) {
    w != "" && forall k :: 0 <= k < |w| ==> !Blank(w[k])
  }

  /** The words of a line, in order, with blanks between and around them. */
  ghost predicate Words(s: string, ws: seq<string>)
    decreases |ws|
  {
    if ws == [] then AllBlank(s)
    else exists gap: string, rest: string :: StartsWith(s, gap, ws[0], rest) && Words(rest, ws[1..])
  }

  ghost predicate StartsWith(s: string, gap: string, w: string, rest: string) {
    AllBlank(gap) && IsWord(w) && s == gap + w + rest && (rest == "" || Blank(rest[0]))
  }

  lemma {:induction false} FieldsPastBlanks(gap: string, s: string)
    requires AllBlank(gap)
    ensures Fields(gap + s) == Fields(s)
  {
    if gap != "" {
      SpaceIsBlank(gap[0]);
      assert (gap + s)[1..] == gap[1..] + s;
      FieldsPastBlanks(gap[1..], s);
    } else {
      assert gap + s == s;
    }
  }

  lemma FieldsFirst(w: string, rest: string)
    requires IsWord(w) && (rest == "" || Blank(rest[0]))
    ensures Fields(w + rest) == [w] + Fields(rest)
  {
    var s := w + rest;
    SpaceIsBlank(w[0]);
    forall k | 0 <= k < |s| {
      SpaceIsBlank(s[k]);
    }
    assert forall k :: 0 <= k < |w| ==> s[k] == w[k];
    assert rest != "" ==> s[|w|] == rest[0];
    assert WordLen(s) == |w|;
    assert s[..|w|] == w && s[|w|..] == rest;
  }

  lemma {:induction false} WordsAreFields(s: string, ws: seq<string>)
    requires Words(s, ws)
    ensures Fields(s) == ws
    decreases |ws|
  {
    if ws == [] {
      FieldsPastBlanks(s, "");
      assert s + "" == s;
    } else {
      var gap: string, rest: string :| StartsWith(s, gap, ws[0], rest) && Words(rest, ws[1..]);
      assert s == gap + (ws[0] + rest);
      FieldsPastBlanks(gap, ws[0] + rest);
      FieldsFirst(ws[0], rest);
      WordsAreFields(rest, ws[1..]);
    }
  }

  lemma OneMoreBlank(c: char, s: string, ws: seq<string>)
    requires Blank(c) && Words(s, ws)
    ensures Words([c] + s, ws)
  {
    if ws != [] {
      var gap: string, rest: string :| StartsWith(s, gap, ws[0], rest) && Words(rest, ws[1..]);
      assert [c] + s == ([c] + gap) + ws[0] + rest;
      assert StartsWith([c] + s, [c] + gap, ws[0], rest);
    }
  }

  lemma OneMoreWord(w: string, rest: string, ws: seq<string>)
    requires IsWord(w) && (rest == "" || Blank(rest[0])) && Words(rest, ws)
    ensures Words(w + rest, [w] + ws)
  {
    var all := [w] + ws;
    assert all[0] == w && all[1..] == ws;
    assert "" + w + rest == w + rest;
    assert StartsWith(w + rest, "", all[0], rest) && Words(rest, all[1..]);
  }

  lemma {:induction false} FieldsWords(s: string)
    ensures Words(s, Fields(s))
    decreases |s|
  {
    if s != "" {
      forall k | 0 <= k < |s| {
        SpaceIsBlank(s[k]);
      }
      if IsSpace(s[0]) {
        FieldsWords(s[1..]);
        assert s == [s[0]] + s[1..];
        OneMoreBlank(s[0], s[1..], Fields(s[1..]));
      } else {
        var n := WordLen(s);
        FieldsWords(s[n..]);
        assert s == s[..n] + s[n..];
        OneMoreWord(s[..n], s[n..], Fields(s[n..]));
      }
    }
  }

  /** A signature line: a dash, a name, and in base64 four bytes and then the
      signature. */
  ghost predicate SignsLine(b64: Base64, line: string, sig: Bytes) {
    exists name, word, hint: Bytes ::
      Words(line, ["\U{2014}", name, word]) && b64.decode(word) == Some(hint + sig) && |hint| == 4 && sig != []
  }

  lemma LineSignatureReads(b64: Base64, line: string, sig: Bytes)
    ensures LineSignature(b64, line) == Some(sig) <==> SignsLine(b64, line, sig)
  {
    var fields := Fields(line);
    FieldsWords(line);
    if LineSignature(b64, line) == Some(sig) {
      var raw := b64.decode(fields[2]).value;
      assert fields == ["\U{2014}", fields[1], fields[2]];
      assert raw == raw[..4] + sig;
    }
    if SignsLine(b64, line, sig) {
      var name, word, hint: Bytes :|
        Words(line, ["\U{2014}", name, word]) && b64.decode(word) == Some(hint + sig) && |hint| == 4 && sig != [];
      WordsAreFields(line, ["\U{2014}", name, word]);
      assert (hint + sig)[4..] == sig;
    }
  }

  /** A first line, the size, the root, and whatever the log adds. */
  ghost predicate Lines(text: string, first: string, number: string, word: string, rest: string) {
    && text == first + ['\n'] + (number + ['\n'] + (word + ['\n'] + rest))
    && '\n' !in first && '\n' !in number && '\n' !in word
  }

  ghost predicate States(b64: Base64, text: string, root: Bytes, size: int64) {
    && size > 0 && |root| == 32
    && exists first, number, word, rest ::
         Lines(text, first, number, word, rest) && WritesNumber(number, size) && b64.decode(word) == Some(root)
  }

  lemma LinesSplit(text: string, first: string, number: string, word: string, rest: string)
    requires Lines(text, first, number, word, rest)
    ensures Split(text, '\n') == [first] + ([number] + ([word] + Split(rest, '\n')))
  {
    var third := word + ['\n'] + rest;
    var second := number + ['\n'] + third;
    SplitCons(first, '\n', second);
    SplitCons(number, '\n', third);
    SplitCons(word, '\n', rest);
  }

  lemma JoinFirst(lines: seq<string>, k: nat)
    requires k + 1 < |lines|
    ensures Join(lines[k..], '\n') == lines[k] + ['\n'] + Join(lines[k + 1..], '\n')
  {
    assert lines[k..][1..] == lines[k + 1..];
  }

  lemma SplitLines(text: string)
    requires |Split(text, '\n')| >= 4
    ensures var lines := Split(text, '\n');
            Lines(text, lines[0], lines[1], lines[2], Join(lines[3..], '\n'))
  {
    var lines := Split(text, '\n');
    SplitJoin(text, '\n');
    SplitFree(text, '\n');
    assert lines[0..] == lines;
    JoinFirst(lines, 0);
    JoinFirst(lines, 1);
    JoinFirst(lines, 2);
  }

  /** What the lines of a text have to be. */
  ghost predicate Reads(b64: Base64, lines: seq<string>, root: Bytes, size: int64) {
    && |lines| >= 4 && size > 0 && |root| == 32
    && WritesNumber(lines[1], size) && b64.decode(lines[2]) == Some(root)
  }

  lemma ReadTextReads(b64: Base64, text: string, root: Bytes, size: int64)
    ensures ReadText(b64, text) == Ok((root, size)) <==> Reads(b64, Split(text, '\n'), root, size)
  {
    var lines := Split(text, '\n');
    if |lines| >= 4 {
      ParseIntReads(lines[1], size);
    }
  }

  /** A text is read as stating a root and a size exactly when its second line
      writes the size and its third decodes to the root; more may follow. */
  lemma ReadTextStates(b64: Base64, text: string, root: Bytes, size: int64)
    ensures ReadText(b64, text) == Ok((root, size)) <==> States(b64, text, root, size)
  {
    var lines := Split(text, '\n');
    ReadTextReads(b64, text, root, size);
    if Reads(b64, lines, root, size) {
      SplitLines(text);
    }
    if States(b64, text, root, size) {
      var first, number, word, rest :|
        Lines(text, first, number, word, rest) && WritesNumber(number, size) && b64.decode(word) == Some(root);
      LinesSplit(text, first, number, word, rest);
    }
  }

  /** What is returned is what a text the key signed states, and that text is
      the start of the envelope up to the newline before the blank line. */
  lemma AnswerIsSigned(b64: Base64, verify: Verifier, envelope: string) returns (text: string, sig: Bytes, line: string)
    requires Answer(b64, verify, envelope).Ok?
    ensures verify(text, sig) && SignsLine(b64, line, sig) && text + "\n" <= envelope && HasSuffix(text, "\n")
    ensures var (root, size) := Answer(b64, verify, envelope).value;
            States(b64, text, root, size)
  {
    var split := LastIndex(envelope, "\n\n");
    text := envelope[..split + 1];
    assert envelope[split..split + 2] == "\n\n";
    assert envelope[split] == "\n\n"[0] && envelope[split + 1] == "\n\n"[1];
    assert text + "\n" == envelope[..split + 2];
    var lines := SignatureLines(envelope[split + 2..]);
    var k :| 0 <= k < |lines| && Verifies(b64, verify, text, lines[k]);
    line, sig := lines[k], LineSignature(b64, lines[k]).value;
    LineSignatureReads(b64, line, sig);
    var (root, size) := Answer(b64, verify, envelope).value;
    ReadTextStates(b64, text, root, size);
  }

  // ----- the printer

  function Unlines(lines: seq<string>): string {
    if lines == [] then "" else lines[0] + ['\n'] + Unlines(lines[1..])
  }

  /** The text a log signs: its first line, the size and the root, and whatever
      it adds, each line ended by a newline. */
  ghost function NoteText(b64: Base64, origin: string, size: nat, root: Bytes, more: string): string {
    (origin + " - 1") + ['\n'] + (FormatNat(size) + ['\n'] + (b64.encode(root) + ['\n'] + more))
  }

  ghost function SignatureLine(b64: Base64, name: string, hint: Bytes, sig: Bytes): string {
    "\U{2014} " + (name + [' '] + b64.encode(hint + sig))
  }

  /** A checkpoint as the log prints it, with other signers' lines around its
      own signature line. */
  ghost function Print(b64: Base64, origin: string, size: nat, root: Bytes, more: string, hint: Bytes, sig: Bytes,
                       before: seq<string>, after: seq<string>): string
  {
    NoteText(b64, origin, size, root, more) + ['\n']
    + Unlines(before + [SignatureLine(b64, origin, hint, sig)] + after)
  }

  ghost predicate PlainLine(line: string) {
    line != "" && '\n' !in line
  }

  lemma {:induction false} UnlinesNoBlank(lines: seq<string>)
    requires forall k :: 0 <= k < |lines| ==> PlainLine(lines[k])
    ensures lines != [] ==> Unlines(lines) != "" && Unlines(lines)[0] != '\n'
    ensures forall i :: 0 <= i < |Unlines(lines)| - 1 ==> Unlines(lines)[i] != '\n' || Unlines(lines)[i + 1] != '\n'
  {
    if lines != [] {
      UnlinesNoBlank(lines[1..]);
      assert PlainLine(lines[0]);
      var l, rest := lines[0], Unlines(lines[1..]);
      var u := l + ['\n'] + rest;
      forall i | 0 <= i < |u| - 1
        ensures u[i] != '\n' || u[i + 1] != '\n'
      {
        if i < |l| {
          assert u[i] == l[i];
        } else if i > |l| {
          assert u[i] == rest[i - |l| - 1] && u[i + 1] == rest[i - |l|];
        } else {
          assert u[i + 1] == rest[0] && lines[1..] != [];
        }
      }
    }
  }

  lemma {:induction false} UnlinesIsJoin(lines: seq<string>)
    requires lines != []
    ensures Unlines(lines) == Join(lines, '\n') + ['\n']
  {
    if |lines| > 1 {
      UnlinesIsJoin(lines[1..]);
    } else {
      assert lines[1..] == [];
    }
  }

  lemma {:induction false} JoinLast(lines: seq<string>)
    requires lines != [] && lines[|lines| - 1] != ""
    ensures Join(lines, '\n') != ""
    ensures Join(lines, '\n')[|Join(lines, '\n')| - 1] == lines[|lines| - 1][|lines[|lines| - 1]| - 1]
  {
    if |lines| > 1 {
      JoinLast(lines[1..]);
    }
  }

  lemma TrimOne(s: string)
    requires s != "" && s[|s| - 1] != '\n'
    ensures TrimNewlines(s + ['\n']) == s
  {
    assert TrimNewlines(s) == s;
    assert (s + ['\n'])[..|s|] == s;
  }

  /** The signature block of a printed checkpoint reads back as its lines. */
  lemma LinesReadBack(lines: seq<string>)
    requires lines != [] && forall k :: 0 <= k < |lines| ==> PlainLine(lines[k])
    ensures SignatureLines(Unlines(lines)) == lines
  {
    var last := lines[|lines| - 1];
    assert PlainLine(last);
    JoinLast(lines);
    UnlinesIsJoin(lines);
    TrimOne(Join(lines, '\n'));
    JoinSplit(lines, '\n');
  }

  lemma AtBlank(s: string, i: int)
    ensures At(s, "\n\n", i) <==> 0 <= i && i + 1 < |s| && s[i] == '\n' && s[i + 1] == '\n'
  {
    if 0 <= i && i + 2 <= |s| {
      assert s[i..i + 2] == [s[i], s[i + 1]];
      assert "\n\n" == ['\n', '\n'];
    }
  }

  lemma NoBlankPast(text: string, u: string, i: int)
    requires |text| <= i
    requires u != "" && u[0] != '\n'
    requires forall k :: 0 <= k < |u| - 1 ==> u[k] != '\n' || u[k + 1] != '\n'
    ensures !At(text + ['\n'] + u, "\n\n", i)
  {
    var env := text + ['\n'] + u;
    AtBlank(env, i);
    assert forall k :: 0 <= k < |u| ==> env[|text| + 1 + k] == u[k];
    if i > |text| && i + 1 < |env| {
      assert env[i] == u[i - |text| - 1] && env[i + 1] == u[i - |text| - 1 + 1];
    }
  }

  /** Text and signatures come apart at the blank line between them. */
  lemma BlankLineFound(text: string, u: string)
    requires text != "" && text[|text| - 1] == '\n'
    requires u != "" && u[0] != '\n'
    requires forall k :: 0 <= k < |u| - 1 ==> u[k] != '\n' || u[k + 1] != '\n'
    ensures LastIndex(text + ['\n'] + u, "\n\n") == |text| - 1
  {
    var env := text + ['\n'] + u;
    forall i | |text| <= i
      ensures !At(env, "\n\n", i)
    {
      NoBlankPast(text, u, i);
    }
    AtBlank(env, |text| - 1);
  }

  lemma OpenedAtBlank(text: string, u: string)
    requires text != "" && text[|text| - 1] == '\n'
    requires u != "" && u[0] != '\n'
    requires forall k :: 0 <= k < |u| - 1 ==> u[k] != '\n' || u[k + 1] != '\n'
    ensures Opened(text + ['\n'] + u) == Some((text, u))
  {
    BlankLineFound(text, u);
    var env := text + ['\n'] + u;
    assert env[..|text|] == text && env[|text| + 1..] == u;
  }

  // ----- fields

  lemma {:induction false} WordStops(a: string, c: char, b: string)
    requires IsSpace(c)
    ensures WordLen(a + [c] + b) == WordLen(a)
  {
    var s := a + [c] + b;
    if a != "" && !IsSpace(a[0]) {
      WordStops(a[1..], c, b);
      assert s[1..] == a[1..] + [c] + b;
    }
  }

  lemma {:induction false} FieldsConcat(a: string, c: char, b: string)
    requires IsSpace(c)
    ensures Fields(a + [c] + b) == Fields(a) + Fields(b)
    decreases |a|
  {
    var s := a + [c] + b;
    if a == "" {
      assert s[1..] == b;
    } else if IsSpace(a[0]) {
      assert s[1..] == a[1..] + [c] + b;
      FieldsConcat(a[1..], c, b);
    } else {
      var n := WordLen(a);
      WordStops(a, c, b);
      assert s[..n] == a[..n] && s[n..] == a[n..] + [c] + b;
      FieldsConcat(a[n..], c, b);
      assert Fields(s) == [a[..n]] + (Fields(a[n..]) + Fields(b));
    }
  }

  lemma FieldsWord(w: string)
    requires w != "" && forall k :: 0 <= k < |w| ==> !IsSpace(w[k])
    ensures Fields(w) == [w]
  {
    assert WordLen(w) == |w|;
    assert w[..|w|] == w && w[|w|..] == "";
    assert !IsSpace(w[0]);
  }

  /** The log's own line carries its signature exactly when its name is one
      word. */
  lemma OwnLineSignature(b64: Base64, origin: string, hint: Bytes, sig: Bytes)
    requires b64.Lawful() && |hint| == 4 && sig != []
    ensures (exists w :: Words(origin, [w])) ==> LineSignature(b64, SignatureLine(b64, origin, hint, sig)) == Some(sig)
    ensures !(exists w :: Words(origin, [w])) ==> LineSignature(b64, SignatureLine(b64, origin, hint, sig)) == None
  {
    var raw := hint + sig;
    var word := b64.encode(raw);
    FieldsWord(word);
    FieldsWord("\U{2014}");
    FieldsConcat(origin, ' ', word);
    FieldsConcat("\U{2014}", ' ', origin + [' '] + word);
    assert "\U{2014}" + [' '] == "\U{2014} ";
    assert Fields(SignatureLine(b64, origin, hint, sig)) == ["\U{2014}"] + Fields(origin) + [word];
    assert raw[4..] == sig;
    FieldsWords(origin);
    if w :| Words(origin, [w]) {
      WordsAreFields(origin, [w]);
    } else if |Fields(origin)| == 1 {
      assert Fields(origin) == [Fields(origin)[0]];
    }
  }

  lemma NoteTextReads(b64: Base64, origin: string, size: int64, root: Bytes, more: string)
    requires b64.Lawful() && '\n' !in origin && size > 0 && |root| == 32
    ensures ReadText(b64, NoteText(b64, origin, size, root, more)) == Ok((root, size))
  {
    var word := b64.encode(root);
    assert '\n' !in word;
    LinesSplit(NoteText(b64, origin, size, root, more), origin + " - 1", FormatNat(size), word, more);
    ParseFormat(size);
  }

  /** Round trip. Printed by a log whose name holds no newline, with whatever
      text it adds and any other signers' lines around its own, a checkpoint
      reads back as exactly the size and root printed if, and only if, that name
      is a single word. */
  lemma PrintReadsBack(b64: Base64, verify: Verifier, origin: string, size: int64, root: Bytes, more: string,
                       hint: Bytes, sig: Bytes, before: seq<string>, after: seq<string>)
    requires b64.Lawful() && '\n' !in origin && size > 0 && |root| == 32
    requires more == "" || more[|more| - 1] == '\n'
    requires |hint| == 4 && sig != [] && verify(NoteText(b64, origin, size, root, more), sig)
    requires forall l :: l in before + after ==>
               PlainLine(l) && !Verifies(b64, verify, NoteText(b64, origin, size, root, more), l)
    ensures Answer(b64, verify, Print(b64, origin, size, root, more, hint, sig, before, after)) == Ok((root, size))
            <==> exists w :: Words(origin, [w])
  {
    var text := NoteText(b64, origin, size, root, more);
    var own := SignatureLine(b64, origin, hint, sig);
    OwnLineSignature(b64, origin, hint, sig);
    OwnLinePlain(b64, origin, hint, sig);
    OnlyOwnVerifies(b64, verify, text, before, own, after);
    NoteTextEnds(b64, origin, size, root, more);
    AnswerOfPrint(b64, verify, text, before + [own] + after);
    NoteTextReads(b64, origin, size, root, more);
  }

  lemma NoteTextEnds(b64: Base64, origin: string, size: nat, root: Bytes, more: string)
    requires more == "" || more[|more| - 1] == '\n'
    ensures var text := NoteText(b64, origin, size, root, more);
            text != "" && text[|text| - 1] == '\n'
  {
  }

  lemma OnlyOwnVerifies(b64: Base64, verify: Verifier, text: string, before: seq<string>, own: string, after: seq<string>)
    requires PlainLine(own)
    requires forall l :: l in before + after ==> PlainLine(l) && !Verifies(b64, verify, text, l)
    ensures var lines := before + [own] + after;
            && (forall k :: 0 <= k < |lines| ==> PlainLine(lines[k]))
            && (AnyVerifies(b64, verify, text, lines) <==> Verifies(b64, verify, text, own))
  {
    var lines := before + [own] + after;
    forall k | 0 <= k < |lines|
      ensures lines[k] == own || lines[k] in before + after
    {
    }
    assert lines[|before|] == own;
  }

  /** The answer on a text and its signature lines, put together. */
  lemma AnswerOfPrint(b64: Base64, verify: Verifier, text: string, lines: seq<string>)
    requires text != "" && text[|text| - 1] == '\n'
    requires lines != [] && forall k :: 0 <= k < |lines| ==> PlainLine(lines[k])
    ensures Answer(b64, verify, text + ['\n'] + Unlines(lines)) == AnswerFor(b64, verify, text, lines)
  {
    UnlinesNoBlank(lines);
    OpenedAtBlank(text, Unlines(lines));
    LinesReadBack(lines);
  }

  lemma OwnLinePlain(b64: Base64, origin: string, hint: Bytes, sig: Bytes)
    requires b64.Lawful() && '\n' !in origin
    ensures PlainLine(SignatureLine(b64, origin, hint, sig))
  {
    var word := b64.encode(hint + sig);
    assert '\n' !in word;
  }
}
