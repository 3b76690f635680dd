/** Keyless identities: which subject patterns a policy may use, and the
    authority every string such a pattern matches is then under. */
module Subject {
  import opened Wrappers
  import opened Text
  import opened Glob

  datatype Kind = Exact | Mail | URL

  datatype Refusal =
    | Empty | WildcardScheme | WildcardHost | NoAccount | WildcardAccount
    | PathNotAddress | NoDomain | PathInDomain | WildcardDomain | SharedSuffix | NoAuthority

  /** A string read as scheme://host/path. */
  datatype Url = Url(scheme: string, host: string, path: string)

  /** Cut at the first slash, which goes; all of s when there is none. */
  function CutSlash(s: string): (string, string) {
    var j := First(s, '/');
    if j >= 0 then (s[..j], s[j + 1..]) else (s, "")
  }

  function ReadUrl(s: string): Option<Url> {
    var i := Index(s, "://");
    if i < 0 then None
    else
      var (host, path) := CutSlash(s[i + 3..]);
      Some(Url(s[..i], host, path))
  }

  function PinsAnAccount(path: string): Option<Refusal> {
    var segment := CutSlash(path).0;
    if segment == "" then Some(NoAccount)
    else if '*' in segment then Some(WildcardAccount)
    else None
  }

  function PinsAMailDomain(domain: string): Option<Refusal> {
    if domain == "" then Some(NoDomain)
    else if '/' in domain then Some(PathInDomain)
    else
      var i := Last(domain, '*');
      if i < 0 then None
      else
        var tail := domain[i + 1..];
        if !("." <= tail) || |tail| < 2 then Some(WildcardDomain)
        else if '.' !in tail[1..] then Some(SharedSuffix)
        else None
  }

  function ClassifySubject(pattern: string): Result<Kind, Refusal> {
    if pattern == "" then Err(Empty)
    else if '*' !in pattern then Ok(Exact)
    else
      match ReadUrl(pattern)
      case Some(url) =>
        if '*' in url.scheme then Err(WildcardScheme)
        else if url.host == "" || '*' in url.host then Err(WildcardHost)
        else (match PinsAnAccount(url.path) case Some(e) => Err(e) case None => Ok(URL))
      case None =>
        var j := Last(pattern, '@');
        if j < 0 then Err(NoAuthority)
        else if '/' in pattern[..j] then Err(PathNotAddress)
        else (match PinsAMailDomain(pattern[j + 1..]) case Some(e) => Err(e) case None => Ok(Mail))
  }

  datatype Identity = Identity(subject: string, issuer: string)

  // ----- which patterns are allowed, by their shape

  ghost predicate SchemeFirst(scheme: string) {
    forall k :: 0 <= k < |scheme| ==> !At(scheme + "://", "://", k)
  }

  ghost predicate Literal(s: string) {
    s != "" && '*' !in s && '/' !in s
  }

  /** A literal scheme, which ends at the first "://", a literal host, a literal
      account, and anything after that, with a wildcard. */
  ghost predicate UrlShape(p: string) {
    '*' in p && exists scheme, host, account, under :: UrlParts(p, scheme, host, account, under)
  }

  ghost predicate UrlParts(p: string, scheme: string, host: string, account: string, under: string) {
    && p == scheme + ("://" + (host + ("/" + (account + ("/" + under)))))
    && SchemeFirst(scheme) && '*' !in scheme && Literal(host) && Literal(account)
  }

  /** Two labels or more, all literal, with the dot before them. */
  ghost predicate TwoLabels(tail: string) {
    '*' !in tail && tail != "" && tail[0] == '.' && '.' in tail[1..]
  }

  /** No URL; any local part without a slash, and after the last at sign a domain
      that is literal, or literal from its last wildcard on for two labels. */
  ghost predicate MailShape(p: string) {
    '*' in p && (forall i :: !At(p, "://", i)) && exists local, domain :: MailParts(p, local, domain)
  }

  ghost predicate MailParts(p: string, local: string, domain: string) {
    && p == local + ("@" + domain)
    && '/' !in local && '/' !in domain && '@' !in domain && domain != ""
    && ('*' in domain ==> exists head, tail :: Pinned(domain, head, tail))
  }

  ghost predicate ExactShape(p: string) {
    p != "" && '*' !in p
  }

  lemma UrlHasShape(p: string)
    requires ClassifySubject(p) == Ok(URL)
    ensures UrlShape(p)
  {
    var account, under := UrlPatternShape(p);
    var u := ReadUrl(p).value;
    UrlWritten(p, u.scheme, u.host, account, under);
  }

  lemma UrlWritten(p: string, scheme: string, host: string, account: string, under: string)
    requires p == Authority(scheme, host, account) + under && '*' in p && '*' !in Authority(scheme, host, account)
    requires SchemeFirst(scheme) && host != "" && account != "" && '/' !in host && '/' !in account
    ensures UrlShape(p)
  {
    LiteralParts(scheme, host, account);
    assert p == scheme + ("://" + (host + ("/" + (account + ("/" + under)))));
    assert UrlParts(p, scheme, host, account, under);
  }

  lemma LiteralParts(scheme: string, host: string, account: string)
    ensures '*' !in Authority(scheme, host, account) ==> '*' !in scheme && '*' !in host && '*' !in account
  {
    assert forall c :: c in scheme ==> c in Authority(scheme, host, account);
    assert forall c :: c in account ==> c in account + "/";
    assert forall c :: c in account ==> c in host + ("/" + (account + "/"));
    assert forall c :: c in host ==> c in host + ("/" + (account + "/"));
    assert forall c :: c in host + ("/" + (account + "/")) ==> c in Authority(scheme, host, account);
  }

  lemma ShapeIsUrl(p: string, scheme: string, host: string, account: string, under: string)
    requires '*' in p && UrlParts(p, scheme, host, account, under)
    ensures ClassifySubject(p) == Ok(URL)
  {
    assert p == Authority(scheme, host, account) + under;
    AuthorityOf(p, scheme, host, account, under);
    CutAgain(account, under);
  }

  lemma UrlExactly(p: string)
    ensures ClassifySubject(p) == Ok(URL) <==> UrlShape(p)
  {
    if ClassifySubject(p) == Ok(URL) {
      UrlHasShape(p);
    }
    if UrlShape(p) {
      var scheme, host, account, under :| UrlParts(p, scheme, host, account, under);
      ShapeIsUrl(p, scheme, host, account, under);
    }
  }

  ghost predicate Pinned(domain: string, head: string, tail: string) {
    domain == head + "*" + tail && TwoLabels(tail)
  }

  lemma TailPinned(domain: string, head: string, tail: string)
    requires domain == head + "*" + tail && '*' !in tail && domain != "" && '/' !in domain
    ensures PinsAMailDomain(domain) == None <==> TwoLabels(tail)
  {
    StarAt(domain, head, tail);
    assert "." <= tail <==> tail != "" && tail[0] == '.';
  }

  lemma DomainExactly(domain: string)
    ensures PinsAMailDomain(domain) == None <==>
            domain != "" && '/' !in domain && ('*' in domain ==> exists head, tail :: Pinned(domain, head, tail))
  {
    if '*' in domain && '/' !in domain {
      var i := Last(domain, '*');
      var h, t := domain[..i], domain[i + 1..];
      assert domain == h + "*" + t && '*' !in t;
      TailPinned(domain, h, t);
      assert TwoLabels(t) ==> Pinned(domain, h, t);
      forall head, tail | Pinned(domain, head, tail)
        ensures tail == t
      {
        StarAt(domain, head, tail);
      }
    }
  }

  lemma StarAt(domain: string, head: string, tail: string)
    requires domain == head + "*" + tail && '*' !in tail
    ensures Last(domain, '*') == |head| && domain[|head| + 1..] == tail
  {
    assert domain[|head|] == '*';
    assert forall k :: |head| < k < |domain| ==> domain[k] == tail[k - |head| - 1];
  }

  lemma SignAt(p: string, local: string, domain: string)
    requires p == local + ("@" + domain) && '@' !in domain
    ensures Last(p, '@') == |local| && p[..|local|] == local && p[|local| + 1..] == domain
  {
    assert p[|local|] == '@';
    assert forall k :: |local| < k < |p| ==> p[k] == domain[k - |local| - 1];
  }

  lemma MailHasShape(p: string)
    requires ClassifySubject(p) == Ok(Mail)
    ensures MailShape(p)
  {
    var local, domain := SplitAtSign(p);
    assert MailParts(p, local, domain);
  }

  lemma SplitAtSign(p: string) returns (local: string, domain: string)
    requires ClassifySubject(p) == Ok(Mail)
    ensures MailParts(p, local, domain) && '*' in p && Index(p, "://") < 0
  {
    var j := MailFacts(p);
    CutAtSign(p, j);
    local, domain := p[..j], p[j + 1..];
    DomainExactly(domain);
  }

  lemma MailFacts(p: string) returns (j: nat)
    requires ClassifySubject(p) == Ok(Mail)
    ensures j == Last(p, '@') && j < |p| && '*' in p && Index(p, "://") < 0
    ensures '/' !in p[..j] && PinsAMailDomain(p[j + 1..]) == None
  {
    j := Last(p, '@');
  }

  lemma CutAtSign(p: string, j: nat)
    requires j == Last(p, '@')
    ensures j < |p| && p == p[..j] + ("@" + p[j + 1..]) && '@' !in p[j + 1..]
  {
    assert p[j] == '@';
  }

  lemma ShapeIsMail(p: string, local: string, domain: string)
    requires '*' in p && (forall i :: !At(p, "://", i)) && MailParts(p, local, domain)
    ensures ClassifySubject(p) == Ok(Mail)
  {
    SignAt(p, local, domain);
    DomainExactly(domain);
  }

  lemma MailExactly(p: string)
    ensures ClassifySubject(p) == Ok(Mail) <==> MailShape(p)
  {
    if ClassifySubject(p) == Ok(Mail) {
      MailHasShape(p);
    }
    if MailShape(p) {
      var local, domain :| MailParts(p, local, domain);
      ShapeIsMail(p, local, domain);
    }
  }

  /** What a pattern is taken for is its shape, and anything else is refused. */
  lemma ClassifiedByShape(p: string)
    ensures ClassifySubject(p) == Ok(Exact) <==> ExactShape(p)
    ensures ClassifySubject(p) == Ok(URL) <==> UrlShape(p)
    ensures ClassifySubject(p) == Ok(Mail) <==> MailShape(p)
  {
    UrlExactly(p);
    MailExactly(p);
  }

  /** The issuer is the same, the pattern is exact or of the subject's own kind,
      and it matches. */
  ghost predicate Accepts(id: Identity, subject: string, issuer: string, kind: Kind) {
    && id.issuer == issuer
    && (ExactShape(id.subject) || (kind == URL && UrlShape(id.subject)) || (kind == Mail && MailShape(id.subject)))
    && Means(id.subject, subject)
  }

  method IdentityMatches(id: Identity, subject: string, issuer: string, kind: Kind) returns (ok: bool)
    ensures ok <==> Accepts(id, subject, issuer, kind)
  {
    ClassifiedByShape(id.subject);
    if id.issuer != issuer {
      return false;
    }
    var c := ClassifySubject(id.subject);
    if c.Err? || (c.value != Exact && c.value != kind) {
      return false;
    }
    ok := GlobMatch(id.subject, subject);
  }

  // ----- reading a string back

  lemma CutRejoins(s: string)
    ensures '/' !in CutSlash(s).0
    ensures '/' in s ==> s == CutSlash(s).0 + "/" + CutSlash(s).1
    ensures '/' !in s ==> CutSlash(s) == (s, "")
  {
  }

  /** The cut is found again in anything that continues past the slash. */
  lemma CutAgain(a: string, rest: string)
    requires '/' !in a
    ensures CutSlash(a + "/" + rest) == (a, rest)
  {
    var s := a + "/" + rest;
    assert s[..|a|] == a && s[|a| + 1..] == rest;
    assert s[|a|] == '/' && First(s, '/') == |a|;
  }

  lemma SchemeRejoins(s: string)
    requires ReadUrl(s).Some?
    ensures var scheme := ReadUrl(s).value.scheme;
            && SchemeFirst(scheme) && |scheme| + 3 <= |s|
            && s == scheme + "://" + s[|scheme| + 3..]
            && CutSlash(s[|scheme| + 3..]) == (ReadUrl(s).value.host, ReadUrl(s).value.path)
  {
    var i := Index(s, "://");
    var scheme := s[..i];
    assert s[i..i + 3] == "://";
    assert s[..i + 3] == scheme + "://";
    forall k | 0 <= k < i
      ensures !At(scheme + "://", "://", k)
    {
      assert !At(s, "://", k);
      assert (scheme + "://")[k..k + 3] == s[k..k + 3];
    }
  }

  lemma SchemeAgain(scheme: string, rest: string)
    requires SchemeFirst(scheme)
    ensures var (host, path) := CutSlash(rest);
            ReadUrl(scheme + "://" + rest) == Some(Url(scheme, host, path))
  {
    var s := scheme + "://" + rest;
    var i := |scheme|;
    assert s[i..i + 3] == "://";
    forall k | 0 <= k < i
      ensures !At(s, "://", k)
    {
      assert !At(scheme + "://", "://", k);
      assert (scheme + "://")[k..k + 3] == s[k..k + 3];
    }
    assert At(s, "://", i);
    assert s[..i] == scheme && s[i + 3..] == rest;
  }

  /** The text of a URL up to and including the slash after its account. */
  function Authority(scheme: string, host: string, account: string): string {
    scheme + ("://" + (host + ("/" + (account + "/"))))
  }

  lemma AuthorityText(scheme: string, host: string, account: string, under: string)
    ensures Authority(scheme, host, account) + under == scheme + "://" + (host + "/" + (account + "/" + under))
    ensures '*' !in scheme && '*' !in host && '*' !in account ==> '*' !in Authority(scheme, host, account)
  {
  }

  lemma AuthorityReads(scheme: string, host: string, account: string, under: string)
    requires SchemeFirst(scheme) && '/' !in host
    ensures ReadUrl(Authority(scheme, host, account) + under)
            == Some(Url(scheme, host, account + "/" + under))
  {
    var path := account + "/" + under;
    var rest := host + "/" + path;
    AuthorityText(scheme, host, account, under);
    SchemeAgain(scheme, rest);
    CutAgain(host, path);
  }

  lemma AuthorityOf(s: string, scheme: string, host: string, account: string, under: string)
    requires SchemeFirst(scheme) && '/' !in host && s == Authority(scheme, host, account) + under
    ensures ReadUrl(s) == Some(Url(scheme, host, account + "/" + under))
  {
    AuthorityReads(scheme, host, account, under);
  }

  // ----- what an accepted wildcard pattern pins

  lemma UrlPatternLiteral(pattern: string)
    requires ClassifySubject(pattern) == Ok(URL)
    ensures ReadUrl(pattern).Some? && '*' in pattern
    ensures var u := ReadUrl(pattern).value;
            '*' !in u.scheme && '*' !in u.host && u.host != ""
            && CutSlash(u.path).0 != "" && '*' !in CutSlash(u.path).0
  {
    var u := ReadUrl(pattern).value;
  }

  lemma StarPastCut(s: string)
    requires '*' in s && '*' !in CutSlash(s).0
    ensures s == CutSlash(s).0 + "/" + CutSlash(s).1 && '*' in CutSlash(s).1 && '/' !in CutSlash(s).0
  {
    CutRejoins(s);
  }

  /** An accepted URL pattern is literal up to and including the slash after
      its account. */
  lemma UrlPatternShape(pattern: string) returns (account: string, under: string)
    requires ClassifySubject(pattern) == Ok(URL)
    ensures ReadUrl(pattern).Some?
    ensures var u := ReadUrl(pattern).value;
            && pattern == Authority(u.scheme, u.host, account) + under
            && '*' !in Authority(u.scheme, u.host, account) && SchemeFirst(u.scheme)
            && u.host != "" && account != "" && '/' !in u.host && '/' !in account
  {
    UrlPatternLiteral(pattern);
    var u := ReadUrl(pattern).value;
    SchemeRejoins(pattern);
    var rest := pattern[|u.scheme| + 3..];
    assert '*' in rest;
    StarPastCut(rest);
    StarPastCut(u.path);
    account, under := CutSlash(u.path).0, CutSlash(u.path).1;
    AuthorityText(u.scheme, u.host, account, under);
  }

  /** Every string an accepted URL pattern matches is under the pattern's own
      scheme, host and account: read as a URL it has exactly those. */
  lemma UrlPinsAuthority(pattern: string, s: string) returns (account: string, inPattern: string, under: string)
    requires ClassifySubject(pattern) == Ok(URL) && Means(pattern, s)
    ensures ReadUrl(pattern).Some? && ReadUrl(s).Some?
    ensures var (p, u) := (ReadUrl(pattern).value, ReadUrl(s).value);
            && u.scheme == p.scheme && u.host == p.host != "" && account != "" && '/' !in account
            && p.path == account + "/" + inPattern && u.path == account + "/" + under
            && Authority(p.scheme, p.host, account) <= s
  {
    account, inPattern := UrlPatternShape(pattern);
    var p := ReadUrl(pattern).value;
    under := MatchedUnder(pattern, s, p.scheme, p.host, account, inPattern);
  }

  lemma MatchedUnder(pattern: string, s: string, scheme: string, host: string, account: string, inPattern: string)
    returns (under: string)
    requires SchemeFirst(scheme) && '/' !in host && '*' !in Authority(scheme, host, account)
    requires pattern == Authority(scheme, host, account) + inPattern && Means(pattern, s)
    ensures ReadUrl(pattern) == Some(Url(scheme, host, account + "/" + inPattern))
    ensures ReadUrl(s) == Some(Url(scheme, host, account + "/" + under))
    ensures Authority(scheme, host, account) <= s
  {
    var authority := Authority(scheme, host, account);
    LiteralStart(pattern, authority, s);
    under := s[|authority|..];
    AuthorityOf(pattern, scheme, host, account, inPattern);
    AuthorityOf(s, scheme, host, account, under);
  }

  function MailDomain(s: string): string
    requires '@' in s
  {
    s[Last(s, '@') + 1..]
  }

  /** A literal character of a pattern is in everything it matches. */
  lemma {:induction false} LiteralChar(parts: seq<string>, fills: seq<string>, c: char)
    requires |parts| == |fills| + 1
    requires c in Join(parts, '*') && c != '*'
    ensures c in Weave(parts, fills)
    decreases |parts|
  {
    if fills != [] && c !in parts[0] {
      LiteralChar(parts[1..], fills[1..], c);
    }
  }

  lemma MatchedChar(pattern: string, s: string, c: char)
    requires Means(pattern, s) && c in pattern && c != '*'
    ensures c in s
  {
    var fills :| Fills(Split(pattern, '*'), fills, s);
    SplitJoin(pattern, '*');
    LiteralChar(Split(pattern, '*'), fills, c);
  }

  /** The literal end of an address pattern's domain. */
  function PinnedTail(domain: string): (tail: string)
    ensures HasSuffix(domain, tail)
    ensures '*' !in tail
  {
    domain[Last(domain, '*') + 1..]
  }

  lemma MailPatternShape(pattern: string)
    requires ClassifySubject(pattern) == Ok(Mail)
    ensures '@' in pattern && '@' !in MailDomain(pattern) && MailDomain(pattern) != ""
    ensures HasSuffix(pattern, "@" + MailDomain(pattern))
    ensures '*' in MailDomain(pattern) ==>
              "." <= PinnedTail(MailDomain(pattern)) && '.' in PinnedTail(MailDomain(pattern))[1..]
  {
    var j := Last(pattern, '@');
    assert pattern[j..] == "@" + pattern[j + 1..];
    DomainPinned(MailDomain(pattern));
  }

  lemma DomainPinned(domain: string)
    requires PinsAMailDomain(domain) == None
    ensures domain != ""
    ensures '*' in domain ==> "." <= PinnedTail(domain) && '.' in PinnedTail(domain)[1..]
  {
  }

  /** Every string an accepted address pattern matches is an address in the
      pattern's own domain, or under the literal tail of two labels or more
      that its wildcarded domain ends on. */
  lemma MailPinsDomain(pattern: string, s: string)
    requires ClassifySubject(pattern) == Ok(Mail) && Means(pattern, s)
    ensures '@' in pattern && '@' in s
    ensures var domain := MailDomain(pattern);
            if '*' !in domain then MailDomain(s) == domain != ""
            else
              var tail := PinnedTail(domain);
              "." <= tail && |Split(tail[1..], '.')| >= 2 && HasSuffix(MailDomain(s), tail)
  {
    MailPatternShape(pattern);
    MatchedChar(pattern, s, '@');
    var domain := MailDomain(pattern);
    if '*' !in domain {
      LiteralEnd(pattern, "@" + domain, s);
      LastAtBefore(s, domain);
    } else {
      var tail := PinnedTail(domain);
      SuffixTwice(pattern, "@" + domain, tail);
      LiteralEnd(pattern, tail, s);
      assert forall k :: 0 <= k < |tail| ==> tail[k] in domain;
      TailAfterAt(s, tail);
    }
  }

  lemma SuffixTwice(s: string, mid: string, end: string)
    requires mid != "" && HasSuffix(s, mid) && HasSuffix(mid[1..], end)
    ensures HasSuffix(s, end)
    ensures forall k :: 0 <= k < |end| ==> end[k] in mid[1..]
  {
    assert s[|s| - |end|..] == mid[|mid| - |end|..];
    assert mid[|mid| - |end|..] == mid[1..][|mid| - 1 - |end|..];
    assert forall k :: 0 <= k < |end| ==> end[k] == mid[1..][|mid| - 1 - |end| + k];
  }

  lemma LastAtBefore(s: string, domain: string)
    requires '@' in s && HasSuffix(s, "@" + domain) && '@' !in domain
    ensures MailDomain(s) == domain
  {
    var at := |s| - |domain| - 1;
    assert s[at..] == "@" + domain;
    assert s[at] == '@' && s[at + 1..] == domain;
    assert Last(s, '@') == at;
  }

  lemma TailAfterAt(s: string, tail: string)
    requires '@' in s && HasSuffix(s, tail) && '@' !in tail
    ensures HasSuffix(MailDomain(s), tail)
  {
    var l := Last(s, '@');
    var from := |s| - |tail|;
    assert forall k :: from <= k < |s| ==> s[k] == tail[k - from];
    assert l < from;
    assert s[l + 1..][|s| - l - 1 - |tail|..] == s[from..];
  }

  /** The authority an identity is under, as far as its kind has one: the
      scheme, host and account of a URL, or the domain of an address. */
  ghost predicate SameAuthority(pattern: string, s: string, kind: Kind) {
    match kind
    case Exact => s == pattern
    case Mail =>
      && '@' in pattern && '@' in s
      && var domain := MailDomain(pattern);
         if '*' !in domain then MailDomain(s) == domain else HasSuffix(MailDomain(s), PinnedTail(domain))
    case URL =>
      && ReadUrl(pattern).Some? && ReadUrl(s).Some?
      && var (p, u) := (ReadUrl(pattern).value, ReadUrl(s).value);
         p.scheme == u.scheme && p.host == u.host && CutSlash(p.path).0 == CutSlash(u.path).0
  }

  lemma UrlSameAuthority(pattern: string, s: string)
    requires ClassifySubject(pattern) == Ok(URL) && Means(pattern, s)
    ensures SameAuthority(pattern, s, URL)
  {
    var account, inPattern, under := UrlPinsAuthority(pattern, s);
    CutAgain(account, inPattern);
    CutAgain(account, under);
  }

  lemma MailSameAuthority(pattern: string, s: string)
    requires ClassifySubject(pattern) == Ok(Mail) && Means(pattern, s)
    ensures SameAuthority(pattern, s, Mail)
  {
    MailPinsDomain(pattern, s);
  }

  /** A pattern without a wildcard matches only itself. */
  lemma ExactMatchesItself(pattern: string, s: string)
    requires '*' !in pattern
    ensures Means(pattern, s) <==> s == pattern
  {
    ExactOnly(pattern, s);
  }

  lemma ExactHasNoStar(pattern: string)
    requires ClassifySubject(pattern) == Ok(Exact)
    ensures '*' !in pattern
  {
  }

  lemma MatchedSameAuthority(pattern: string, s: string, kind: Kind)
    requires ClassifySubject(pattern) == Ok(kind) && Means(pattern, s)
    ensures SameAuthority(pattern, s, kind)
  {
    match kind
    case Exact => ExactHasNoStar(pattern); ExactMatchesItself(pattern, s);
    case Mail => MailSameAuthority(pattern, s);
    case URL => UrlSameAuthority(pattern, s);
  }

  /** What accepting an identity establishes: the same issuer always, the
      pattern's own kind unless the pattern is exact, and its authority. */
  lemma AcceptedIsPinned(id: Identity, subject: string, issuer: string, kind: Kind)
    requires Accepts(id, subject, issuer, kind)
    ensures id.issuer == issuer && ClassifySubject(id.subject).Ok?
    ensures var k := ClassifySubject(id.subject).value;
            (k == Exact || k == kind) && SameAuthority(id.subject, subject, k)
  {
    ClassifiedByShape(id.subject);
    MatchedSameAuthority(id.subject, subject, ClassifySubject(id.subject).value);
  }

  // ----- when a pinned tail has an empty label

  /** The two-label rule counts dots, not labels: a label of a wildcarded
      domain's tail is empty if and only if two dots are next to each other in
      it or it ends in one. */
  lemma EmptyLabels(pattern: string)
    requires ClassifySubject(pattern) == Ok(Mail) && '@' in pattern && '*' in MailDomain(pattern)
    ensures var tail := PinnedTail(MailDomain(pattern));
            HasEmpty(Split(tail[1..], '.')) <==> Contains(tail, "..") || HasSuffix(tail, ".")
  {
    MailPatternShape(pattern);
    var tail := PinnedTail(MailDomain(pattern));
    EmptyPart(tail[1..], '.');
    TailGaps(tail);
  }

  lemma DotsAt(tail: string, i: nat)
    requires i < |tail| - 1
    ensures At(tail, "..", i) <==> tail[i] == '.' && tail[i + 1] == '.'
  {
    assert tail[i..i + 2] == [tail[i], tail[i + 1]];
  }

  lemma DotsAreGaps(tail: string)
    requires "." <= tail && |tail| >= 2 && Contains(tail, "..")
    ensures Gapped(tail[1..], '.')
  {
    var i: nat, s := Index(tail, ".."), tail[1..];
    DotsAt(tail, i);
    if i == 0 {
      assert s[0] == '.';
    } else {
      assert s[i - 1] == '.' && s[i - 1 + 1] == '.';
    }
  }

  lemma GapsAreDots(tail: string)
    requires "." <= tail && |tail| >= 2 && Gapped(tail[1..], '.')
    ensures Contains(tail, "..") || tail[|tail| - 1] == '.'
  {
    var s := tail[1..];
    if s[0] == '.' {
      DotsAt(tail, 0);
    } else if s[|s| - 1] != '.' {
      var i: int :| 0 <= i < |s| - 1 && s[i] == '.' && s[i + 1] == '.';
      DotsAt(tail, i + 1);
    }
  }

  lemma TailGaps(tail: string)
    requires "." <= tail && |tail| >= 2
    ensures Gapped(tail[1..], '.') <==> Contains(tail, "..") || HasSuffix(tail, ".")
  {
    assert tail[|tail| - 1..] == [tail[|tail| - 1]];
    assert tail[1..][|tail| - 2] == tail[|tail| - 1];
    if Contains(tail, "..") {
      DotsAreGaps(tail);
    }
    if Gapped(tail[1..], '.') {
      GapsAreDots(tail);
    }
  }

  /** Nothing that means something to a pattern, but dots. */
  ghost predicate PlainTail(tail: string) {
    forall c :: c in tail ==> c != '*' && c != '@' && c != ':' && c != '/'
  }

  lemma TailAccepted(tail: string, domain: string, p: string)
    requires PlainTail(tail) && "." <= tail && '.' in tail[1..] && domain == "*" + tail && p == "*@" + domain
    ensures ClassifySubject(p) == Ok(Mail) && '@' in p && MailDomain(p) == domain && PinnedTail(domain) == tail
  {
    assert p[0] == '*' && p[1] == '@';
    NoScheme(p);
    LastAt(p, domain);
    LastStar(domain, tail);
  }

  lemma LastAt(p: string, domain: string)
    requires p == "*@" + domain && '@' !in domain
    ensures Last(p, '@') == 1 && p[..1] == "*" && p[2..] == domain
  {
    assert forall i :: 2 <= i < |p| ==> p[i] == domain[i - 2];
  }

  lemma LastStar(domain: string, tail: string)
    requires domain == "*" + tail && '*' !in tail
    ensures Last(domain, '*') == 0 && domain[1..] == tail
  {
    assert forall i :: 1 <= i < |domain| ==> domain[i] == tail[i - 1];
  }

  /** Two dots next to each other are accepted... */
  lemma DoubledDotIsAccepted(word: string) returns (p: string)
    requires word != "" && PlainTail(word)
    ensures ClassifySubject(p) == Ok(Mail) && '@' in p && PinnedTail(MailDomain(p)) == ".." + word
    ensures HasEmpty(Split(PinnedTail(MailDomain(p))[1..], '.'))
  {
    var tail := ".." + word;
    p := "*@" + ("*" + tail);
    assert tail[1..][0] == '.';
    TailAccepted(tail, "*" + tail, p);
    EmptyLabels(p);
    assert At(tail, "..", 0);
  }

  /** ...and so is a dot at the end. */
  lemma TrailingDotIsAccepted(word: string) returns (p: string)
    requires word != "" && PlainTail(word)
    ensures ClassifySubject(p) == Ok(Mail) && '@' in p && PinnedTail(MailDomain(p)) == "." + word + "."
    ensures HasEmpty(Split(PinnedTail(MailDomain(p))[1..], '.'))
  {
    var tail := "." + word + ".";
    p := "*@" + ("*" + tail);
    assert tail[1..][|word|] == '.';
    TailAccepted(tail, "*" + tail, p);
    EmptyLabels(p);
    assert tail[|tail| - 1..] == ".";
  }

  lemma NoScheme(s: string)
    requires ':' !in s
    ensures ReadUrl(s) == None
  {
    assert forall i :: At(s, "://", i) ==> s[i..i + 3][0] == s[i];
  }
}
