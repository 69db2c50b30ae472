/**
 * URL handling shared by the catalog tools and the evaluation: the subset of
 * `urllib.parse.urlparse` the program relies on (scheme, authority and path
 * after the generic syntax of section 3 of RFC 3986), the URL normalisation
 * used for overlap checks (`norm_url` in the augmenter and `norm` in the
 * evaluation are the same code), and the slug ids built from URL paths.
 */
module Urls {
  import opened Wrappers
  import opened Text
  import opened Cells
  import opened Seqs

  // ---------------------------------------------------------------------
  // urlparse
  // ---------------------------------------------------------------------

  /** The authority ends at the first '/', '?' or '#'. */
  predicate InAuthority(c: char) { c != '/' && c != '?' && c != '#' }

  /** The path ends at the first '?' or '#'. */
  predicate InPath(c: char) { c != '?' && c != '#' }

  predicate IsSchemeChar(c: char) { IsLetter(c) || IsDigit(c) || c == '+' || c == '-' || c == '.' }

  predicate NotColon(c: char) { c != ':' }

  /**
   * The position of the ':' ending a valid scheme: the first ':' in `u`,
   * preceded by a letter and then letters, digits, '+', '-' or '.'.
   */
  function SchemeEnd(u: string): (r: Option<nat>)
    ensures r.Some? ==> 0 < r.value < |u| && u[r.value] == ':'
  {
    var i := RunEnd(NotColon, u, 0);
    if 0 < i < |u| && IsLetter(u[0]) && forall j :: 0 <= j < i ==> IsSchemeChar(u[j]) then Some(i) else None
  }

  /** Tab, carriage return and line feed: `urlsplit` deletes them wherever they occur. */
  predicate IsSafe(c: char) { c != '\t' && c != '\r' && c != '\n' }

  /** A C0 control character or a space: `urlsplit` strips these from the front. */
  predicate IsControlOrSpace(c: char) { c <= ' ' }

  /** What `urlsplit` parses: `u` without leading controls and spaces and without any tab, CR or LF. */
  function Cleaned(u: string): (v: string)
    ensures forall i :: 0 <= i < |v| ==> IsSafe(v[i])
  {
    Filter(IsSafe, StripLeftWith(IsControlOrSpace, u))
  }

  /** The schemes whose paths carry `;` parameters (`uses_params` of `urllib.parse`). */
  const ParamSchemes: set<string> :=
    {"", "ftp", "hdl", "prospero", "http", "imap", "https", "shttp", "rtsp", "rtsps", "rtspu", "sip", "sips", "mms", "sftp", "tel"}

  /** Where the last segment of `p` begins: just past its last '/', or 0 when it has none. */
  function SegmentStart(p: string): (r: nat)
    ensures r <= |p|
    ensures 0 < r ==> p[r - 1] == '/'
    ensures forall i :: r <= i < |p| ==> p[i] != '/'
    decreases |p|
  {
    if p == [] then 0 else if p[|p| - 1] == '/' then |p| else SegmentStart(p[..|p| - 1])
  }

  predicate NotSemicolon(c: char) { c != ';' }

  /**
   * The path `urlparse` reports once it has split off the parameters: the
   * text before the first ';' of the last segment. The path is kept whole
   * exactly when its last segment has no ';'.
   */
  function DropParams(p: string): (r: string)
    ensures SegmentStart(p) <= |r| <= |p| && r == p[..|r|]
    ensures |r| < |p| ==> p[|r|] == ';'
    ensures forall i :: SegmentStart(p) <= i < |r| ==> r[i] != ';'
    ensures r == p <==> forall i :: SegmentStart(p) <= i < |p| ==> p[i] != ';'
  {
    p[..RunEnd(NotSemicolon, p, SegmentStart(p))]
  }

  /** The scheme of `v`, lower-cased; "" when it has none. */
  function SchemeName(v: string): string
  {
    match SchemeEnd(v)
    case Some(i) => Lower(v[..i])
    case None => ""
  }

  /** What follows the scheme of `v` and its ':', or all of `v` when it has no scheme. */
  function AfterScheme(v: string): (rest: string)
    ensures |rest| <= |v| && rest == v[|v| - |rest|..]
    ensures (forall i :: 0 <= i < |v| ==> IsSafe(v[i])) ==> forall i :: 0 <= i < |rest| ==> IsSafe(rest[i])
  {
    match SchemeEnd(v)
    case Some(i) => v[i + 1..]
    case None => v
  }

  /** The path within what follows the scheme: past the authority, up to the query or the fragment. */
  function RawPath(rest: string): (path: string)
    ensures forall i :: 0 <= i < |path| ==> InPath(path[i])
    ensures (forall i :: 0 <= i < |rest| ==> IsSafe(rest[i])) ==> forall i :: 0 <= i < |path| ==> IsSafe(path[i])
  {
    var start := if "//" <= rest then RunEnd(InAuthority, rest, 2) else 0;
    var path := rest[start..RunEnd(InPath, rest, start)];
    assert forall i :: 0 <= i < |path| ==> path[i] == rest[start + i];
    path
  }

  /**
   * `urlparse(u).path`: after the scheme and the authority, up to the query
   * or the fragment, with the parameters cut off for the schemes that have them.
   */
  function UrlPath(u: string): (p: string)
    ensures forall i :: 0 <= i < |p| ==> InPath(p[i]) && IsSafe(p[i])
  {
    var v := Cleaned(u);
    var path := RawPath(AfterScheme(v));
    if SchemeName(v) in ParamSchemes then DropParams(path) else path
  }

  /** A scheme as `urlsplit` recognises one: a letter, then letters, digits, '+', '-' or '.'. */
  predicate IsSchemeName(name: string)
  {
    name != [] && IsLetter(name[0]) && forall j :: 0 <= j < |name| ==> IsSchemeChar(name[j])
  }

  /**
   * On a URL with a scheme and an authority, the path is what follows the
   * host up to the query or the fragment, without the parameters of its last
   * segment when the scheme has parameters, and whole otherwise.
   */
  lemma UrlPathOf(name: string, host: string, path: string, tail: string)
    requires IsSchemeName(name)
    requires forall i :: 0 <= i < |host| ==> InAuthority(host[i]) && IsSafe(host[i])
    requires forall i :: 0 <= i < |path| ==> InPath(path[i]) && IsSafe(path[i])
    requires path == [] || path[0] == '/'
    requires forall i :: 0 <= i < |tail| ==> IsSafe(tail[i])
    requires tail == [] || tail[0] == '?' || tail[0] == '#'
    ensures UrlPath(name + "://" + host + path + tail) == if Lower(name) in ParamSchemes then DropParams(path) else path
  {
    var rest := "//" + host + (path + tail);
    var u := name + ":" + rest;
    WebParts(name, host, path, tail);
    assert AllSafe(host) && AllSafe(path) && AllSafe(tail);
    WebRawPath(rest, host, path, tail);
    UrlPathOfSafe(name, host, path, tail);
  }

  lemma UrlPathOfSafe(name: string, host: string, path: string, tail: string)
    requires IsSchemeName(name) && AllSafe(host) && AllSafe(path) && AllSafe(tail)
    requires RawPath("//" + host + (path + tail)) == path
    ensures UrlPath(name + ":" + ("//" + host + (path + tail))) == if Lower(name) in ParamSchemes then DropParams(path) else path
  {
    var rest := "//" + host + (path + tail);
    CleanedWeb(name, host, path, tail);
    SchemeOfName(name, rest);
    UrlPathCombine(name + ":" + rest, rest, name, path);
  }

  lemma CleanedWeb(name: string, host: string, path: string, tail: string)
    requires IsSchemeName(name) && AllSafe(host) && AllSafe(path) && AllSafe(tail)
    ensures Cleaned(name + ":" + ("//" + host + (path + tail))) == name + ":" + ("//" + host + (path + tail))
  {
    RestSafe(host, path, tail);
    UrlPathOfClean(name, "//" + host + (path + tail));
  }

  lemma RestSafe(host: string, path: string, tail: string)
    requires AllSafe(host) && AllSafe(path) && AllSafe(tail)
    ensures AllSafe("//" + host + (path + tail))
  {
    AllSafeConcat(path, tail);
    AllSafeConcat(host, path + tail);
    assert AllSafe("//");
    AllSafeConcat("//", host + (path + tail));
    assert "//" + (host + (path + tail)) == "//" + host + (path + tail);
  }

  lemma UrlPathCombine(u: string, rest: string, name: string, path: string)
    requires Cleaned(u) == u && SchemeName(u) == Lower(name) && AfterScheme(u) == rest && RawPath(rest) == path
    ensures UrlPath(u) == if Lower(name) in ParamSchemes then DropParams(path) else path
  {
    UrlPathParts(u);
  }

  /** `https` and `http` are schemes with parameters. */
  lemma WebSchemes()
    ensures IsSchemeName("https") && Lower("https") in ParamSchemes
    ensures IsSchemeName("http") && Lower("http") in ParamSchemes
  {
    LowerOfNoUpper("https");
    LowerOfNoUpper("http");
  }

  lemma UrlPathParts(u: string)
    requires Cleaned(u) == u
    ensures UrlPath(u) == if SchemeName(u) in ParamSchemes then DropParams(RawPath(AfterScheme(u))) else RawPath(AfterScheme(u))
  {
  }

  lemma WebRawPath(rest: string, host: string, path: string, tail: string)
    requires rest == "//" + host + (path + tail)
    requires forall i :: 0 <= i < |host| ==> InAuthority(host[i])
    requires forall i :: 0 <= i < |path| ==> InPath(path[i])
    requires path == [] || path[0] == '/'
    requires tail == [] || tail[0] == '?' || tail[0] == '#'
    ensures RawPath(rest) == path
  {
    assert path + tail == [] || !InAuthority((path + tail)[0]);
    HostEnd(rest, host, path + tail);
    assert rest[2 + |host|..] == path + tail;
    PathEnd(rest, 2 + |host|, path, tail);
    RawPathOfWeb(rest, host, path);
  }

  lemma RawPathOfWeb(rest: string, host: string, path: string)
    requires "//" <= rest && 2 + |host| + |path| <= |rest|
    requires RunEnd(InAuthority, rest, 2) == 2 + |host|
    requires RunEnd(InPath, rest, 2 + |host|) == 2 + |host| + |path|
    requires rest[2 + |host|..2 + |host| + |path|] == path
    ensures RawPath(rest) == path
  {
  }

  lemma WebParts(name: string, host: string, path: string, tail: string)
    ensures name + "://" + host + path + tail == name + ":" + ("//" + host + (path + tail))
    ensures ("//" + host + (path + tail))[2 + |host|..] == path + tail
  {
  }

  predicate AllSafe(s: string) { forall i :: 0 <= i < |s| ==> IsSafe(s[i]) }

  lemma AllSafeConcat(a: string, b: string)
    requires AllSafe(a) && AllSafe(b)
    ensures AllSafe(a + b)
  {
    assert forall i :: |a| <= i < |a + b| ==> (a + b)[i] == b[i - |a|];
  }

  lemma UrlPathOfClean(name: string, rest: string)
    requires IsSchemeName(name) && AllSafe(rest)
    ensures Cleaned(name + ":" + rest) == name + ":" + rest
  {
    var u := name + ":" + rest;
    assert !IsControlOrSpace(u[0]);
    assert forall i :: 0 <= i < |u| ==> IsSafe(u[i]);
    FilterAllTrue(IsSafe, u);
  }

  lemma SchemeOfName(name: string, rest: string)
    requires IsSchemeName(name)
    ensures SchemeName(name + ":" + rest) == Lower(name)
    ensures AfterScheme(name + ":" + rest) == rest
  {
    var u := name + ":" + rest;
    assert u[..|name|] == name && u[|name|] == ':';
    assert forall j :: 0 <= j < |name| ==> IsSchemeChar(u[j]) && u[j] != ':';
    RunEndPast(NotColon, u, 0, |name|);
    assert SchemeEnd(u) == Some(|name|);
    assert u[|name| + 1..] == rest;
  }

  lemma HostEnd(rest: string, host: string, after: string)
    requires rest == "//" + host + after
    requires forall i :: 0 <= i < |host| ==> InAuthority(host[i])
    requires after == [] || !InAuthority(after[0])
    ensures "//" <= rest && RunEnd(InAuthority, rest, 2) == 2 + |host|
  {
    RunEndPast(InAuthority, rest, 2, 2 + |host|);
    assert 2 + |host| < |rest| ==> rest[2 + |host|] == after[0];
  }

  lemma PathEnd(rest: string, start: nat, path: string, tail: string)
    requires start <= |rest| && rest[start..] == path + tail
    requires forall i :: 0 <= i < |path| ==> InPath(path[i])
    requires tail == [] || !InPath(tail[0])
    ensures RunEnd(InPath, rest, start) == start + |path|
    ensures rest[start..start + |path|] == path
  {
    assert forall i :: start <= i < start + |path| ==> rest[i] == path[i - start];
    RunEndPast(InPath, rest, start, start + |path|);
    assert start + |path| < |rest| ==> rest[start + |path|] == tail[0];
  }

  // ---------------------------------------------------------------------
  // Normalisation for overlap checks
  // ---------------------------------------------------------------------

  /** `re.sub(r"^https?://(www\.)?", "", u)` */
  function DropSchemePrefix(u: string): (r: string)
    ensures |r| <= |u| && r == u[|u| - |r|..]
  {
    if "https://" <= u then DropWww(u[8..])
    else if "http://" <= u then DropWww(u[7..])
    else u
  }

  function DropWww(u: string): (r: string)
    ensures |r| <= |u| && r == u[|u| - |r|..]
  {
    if "www." <= u then u[4..] else u
  }

  predicate HasWebScheme(u: string) { "https://" <= u || "http://" <= u }

  /**
   * Authority and path of `"https://" + u`, with trailing slashes removed
   * from the path: `urlsplit` deletes the tabs, CRs and LFs of `u` first.
   */
  function AuthorityAndPath(u: string): (r: string)
    ensures RunEnd(InAuthority, Filter(IsSafe, u), 0) <= |r| <= |Filter(IsSafe, u)|
    ensures r == Filter(IsSafe, u)[..|r|]
    ensures forall i :: 0 <= i < |r| ==> InPath(r[i])
    ensures r == [] || r[|r| - 1] != '/'
  {
    HostAndPath(Filter(IsSafe, u))
  }

  /**
   * The authority of `v` and its path, without the parameters of the last
   * segment and without trailing slashes: a prefix of `v` that covers the
   * whole authority and stops before any '?' or '#'.
   */
  function HostAndPath(v: string): (r: string)
    ensures RunEnd(InAuthority, v, 0) <= |r| <= |v| && r == v[..|r|]
    ensures forall i :: 0 <= i < |r| ==> InPath(r[i])
    ensures r == [] || r[|r| - 1] != '/'
  {
    var n := RunEnd(InAuthority, v, 0);
    var p := RunEnd(InPath, v, n);
    var path := RStripChar(DropParams(v[n..p]), '/');
    PrefixJoin(v, n, p, path);
    v[..n] + path
  }

  lemma PrefixJoin(v: string, n: nat, p: nat, path: string)
    requires n <= p <= |v| && |path| <= p - n && path == v[n..p][..|path|]
    ensures v[..n] + path == v[..n + |path|]
  {
    assert path == v[n..n + |path|];
  }

  /** The text `norm_url` hands to `urlparse`, without the "https://" it prepends. */
  function Prepared(s: string): (u: string)
    ensures NoUpper(u)
  {
    var l := Lower(Strip(s));
    var u := DropSchemePrefix(l);
    LowerHasNoUpper(Strip(s));
    NoUpperSuffix(l, |l| - |u|);
    u
  }

  lemma NoUpperSuffix(l: string, k: nat)
    requires NoUpper(l) && k <= |l|
    ensures NoUpper(l[k..])
  {
    assert forall i :: 0 <= i < |l| - k ==> l[k..][i] == l[k + i];
  }

  lemma NoUpperPrefix(l: string, k: nat)
    requires NoUpper(l) && k <= |l|
    ensures NoUpper(l[..k])
  {
  }

  /** `norm_url` / `norm` on a string. */
  function NormText(s: string): string
  {
    AuthorityAndPath(Prepared(s))
  }

  /** A normal form is lower-case and has no query, no fragment and no trailing '/'. */
  lemma NormTextShape(s: string)
    ensures NoUpper(NormText(s))
    ensures forall i :: 0 <= i < |NormText(s)| ==> NormText(s)[i] != '?' && NormText(s)[i] != '#'
    ensures NormText(s) == [] || NormText(s)[|NormText(s)| - 1] != '/'
    ensures AllSafe(NormText(s))
  {
    AuthorityAndPathShape(Prepared(s));
  }

  lemma AuthorityAndPathShape(u: string)
    requires NoUpper(u)
    ensures NoUpper(AuthorityAndPath(u)) && AllSafe(AuthorityAndPath(u))
  {
    var v := Filter(IsSafe, u);
    var r := AuthorityAndPath(u);
    FilterKeepsNoUpper(u);
    NoUpperPrefix(v, |r|);
    assert forall i :: 0 <= i < |r| ==> r[i] == v[i];
  }

  lemma FilterKeepsNoUpper(u: string)
    requires NoUpper(u)
    ensures NoUpper(Filter(IsSafe, u))
  {
    var v := Filter(IsSafe, u);
    FilterMembers(IsSafe, u);
    forall i | 0 <= i < |v|
      ensures !IsUpper(v[i])
    {
      assert v[i] in u;
    }
  }

  /** `norm_url(u)` / `norm(u)`: non-strings normalise to "". */
  function NormUrl(c: Cell): string
  {
    match c
    case Str(s) => NormText(s)
    case _ => ""
  }

  /** Lower-casing neither makes nor removes white space. */
  lemma LowerKeepsSpace(c: char)
    ensures IsSpace(LowerChar(c)) == IsSpace(c)
  {
  }

  lemma {:induction false} StripLeftLower(s: string)
    ensures StripLeftWith(IsSpace, Lower(s)) == Lower(StripLeftWith(IsSpace, s))
    decreases |s|
  {
    if |s| > 0 {
      LowerKeepsSpace(s[0]);
      if IsSpace(s[0]) {
        assert Lower(s)[1..] == Lower(s[1..]);
        StripLeftLower(s[1..]);
      }
    }
  }

  lemma {:induction false} StripRightLower(s: string)
    ensures StripRightWith(IsSpace, Lower(s)) == Lower(StripRightWith(IsSpace, s))
    decreases |s|
  {
    if |s| > 0 {
      LowerKeepsSpace(s[|s| - 1]);
      if IsSpace(s[|s| - 1]) {
        assert Lower(s)[..|s| - 1] == Lower(s[..|s| - 1]);
        StripRightLower(s[..|s| - 1]);
      }
    }
  }

  /** Normalisation ignores letter case. */
  lemma NormIgnoresCase(s: string)
    ensures NormText(Lower(s)) == NormText(s)
  {
    StripLeftLower(s);
    StripRightLower(StripLeftWith(IsSpace, s));
    LowerIdempotent(Strip(s));
    assert Prepared(Lower(s)) == Prepared(s);
  }

  predicate IsStripped(s: string)
  {
    s == [] || (!IsSpace(s[0]) && !IsSpace(s[|s| - 1]))
  }

  lemma StrippedStrip(s: string)
    requires IsStripped(s)
    ensures Strip(s) == s
  {
  }

  lemma PreparedOfPlain(x: string)
    requires NoUpper(x) && IsStripped(x) && !HasWebScheme(x)
    ensures Prepared(x) == x
  {
    StrippedStrip(x);
    LowerOfNoUpper(x);
  }

  lemma {:induction false} RunEndPast(p: char -> bool, s: string, i: nat, k: nat)
    requires i <= k <= |s|
    requires forall j :: i <= j < k ==> p(s[j])
    ensures RunEnd(p, s, i) >= k
  {
  }

  /**
   * What a normal form looks like: lower-case, stripped, without a leading
   * web scheme, and a clean authority and path.
   */
  predicate IsNormalForm(r: string)
  {
    NoUpper(r) && IsStripped(r) && !HasWebScheme(r) && IsCleanPath(r)
  }

  /** No '?', '#', tab, CR or LF, no ';' in the last segment and no trailing '/'. */
  predicate IsCleanPath(r: string)
  {
    (forall i :: 0 <= i < |r| ==> r[i] != '?' && r[i] != '#')
    && (r == [] || r[|r| - 1] != '/')
    && AllSafe(r) && NoParams(r)
  }

  /** No ';' in the last segment of `r`, so no parameters to split off. */
  predicate NoParams(r: string)
  {
    forall i :: SegmentStart(r) <= i < |r| ==> r[i] != ';'
  }

  /** A text already in normal form is its own normal form. */
  lemma NormFixpoint(r: string)
    requires IsNormalForm(r)
    ensures NormText(r) == r
  {
    PreparedOfPlain(r);
    AuthorityAndPathOfClean(r);
    NormOfClean(r);
  }

  lemma NormOfClean(r: string)
    requires Prepared(r) == r && AuthorityAndPath(r) == r
    ensures NormText(r) == r
  {
  }

  lemma AuthorityAndPathOfClean(u: string)
    requires IsCleanPath(u)
    ensures AuthorityAndPath(u) == u
  {
    FilterAllTrue(IsSafe, u);
    HostAndPathOfClean(u);
  }

  lemma HostAndPathOfClean(u: string)
    requires forall i :: 0 <= i < |u| ==> u[i] != '?' && u[i] != '#'
    requires u == [] || u[|u| - 1] != '/'
    requires NoParams(u)
    ensures HostAndPath(u) == u
  {
    var n := RunEnd(InAuthority, u, 0);
    AuthorityEnd(u);
    HostAndPathUnfold(u, n, |u|);
    TailWithoutParams(u, n);
    RStripNoSlash(u[n..], u);
    assert u[..n] + u[n..] == u;
  }

  /** Without '?' and '#', the authority ends at a '/' or at the end, and the path runs to the end. */
  lemma AuthorityEnd(u: string)
    requires forall i :: 0 <= i < |u| ==> u[i] != '?' && u[i] != '#'
    ensures RunEnd(InAuthority, u, 0) < |u| ==> u[RunEnd(InAuthority, u, 0)] == '/'
    ensures RunEnd(InPath, u, RunEnd(InAuthority, u, 0)) == |u|
  {
    RunEndPast(InPath, u, RunEnd(InAuthority, u, 0), |u|);
  }

  lemma HostAndPathUnfold(v: string, n: nat, p: nat)
    requires n == RunEnd(InAuthority, v, 0) && p == RunEnd(InPath, v, n)
    ensures HostAndPath(v) == v[..n] + RStripChar(DropParams(v[n..p]), '/')
    ensures p == |v| ==> HostAndPath(v) == v[..n] + RStripChar(DropParams(v[n..]), '/')
  {
    assert p == |v| ==> v[n..p] == v[n..];
  }

  lemma RStripNoSlash(tail: string, u: string)
    requires |tail| <= |u| && tail == u[|u| - |tail|..] && (u == [] || u[|u| - 1] != '/')
    ensures RStripChar(tail, '/') == tail
  {
    assert tail != [] ==> !Is('/')(tail[|tail| - 1]);
  }

  lemma TailWithoutParams(u: string, n: nat)
    requires n <= |u| && (n < |u| ==> u[n] == '/') && NoParams(u)
    ensures DropParams(u[n..]) == u[n..]
  {
    var tail := u[n..];
    if tail != [] {
      SegmentStartAfter(u, n);
      assert forall i :: SegmentStart(tail) <= i < |tail| ==> tail[i] == u[n + i];
    }
  }

  /** The last segment of `u` is the last segment of any suffix starting with '/'. */
  lemma SegmentStartAfter(u: string, n: nat)
    requires n < |u| && u[n] == '/'
    ensures SegmentStart(u) == n + SegmentStart(u[n..])
  {
    var a := SegmentStart(u);
    var t := u[n..];
    var b := n + SegmentStart(t);
    assert t[0] == '/';
    assert b > n && u[b - 1] == t[b - 1 - n];
    assert forall i :: b <= i < |u| ==> u[i] == t[i - n];
  }

  /**
   * Normalising twice changes nothing, when the first result is stripped,
   * has no web scheme in front and has no ';' left in its last segment.
   */
  lemma NormIdempotent(s: string)
    requires IsStripped(NormText(s)) && !HasWebScheme(NormText(s)) && NoParams(NormText(s))
    ensures NormText(NormText(s)) == NormText(s)
  {
    NormTextShape(s);
    NormFixpoint(NormText(s));
  }

  /**
   * Without the last condition normalisation is not idempotent: removing a
   * trailing '/' can turn `a;x` into the last segment, whose parameters the
   * second pass then cuts off.
   */
  lemma NormNotIdempotent()
    ensures NormText("shl.com/a;x/") == "shl.com/a;x"
    ensures NormText("shl.com/a;x") == "shl.com/a"
  {
    NormWithSlash();
    NormWithParams();
  }

  lemma NormWithSlash()
    ensures NormText("shl.com/a;x/") == "shl.com/a;x"
  {
    PlainWithSlash();
    HostAndPathWithSlash();
  }

  lemma NormWithParams()
    ensures NormText("shl.com/a;x") == "shl.com/a"
  {
    PlainWithParams();
    HostAndPathWithParams();
  }

  lemma HostAndPathWithSlash()
    ensures HostAndPath("shl.com/a;x/") == "shl.com/a;x"
  {
    var r := "shl.com/a;x/";
    assert r[7..] == "/a;x/" && forall i :: 0 <= i < 7 ==> InAuthority(r[i]);
    SlashLiteral();
    HostAndPathParts(r, 7, "/a;x/", "/a;x/");
    assert r[..7] + "/a;x" == "shl.com/a;x";
  }

  lemma HostAndPathWithParams()
    ensures HostAndPath("shl.com/a;x") == "shl.com/a"
  {
    var q := "shl.com/a;x";
    assert q[7..] == "/a;x" && forall i :: 0 <= i < 7 ==> InAuthority(q[i]);
    ParamsLiteral();
    HostAndPathParts(q, 7, "/a;x", "/a");
    assert q[..7] + "/a" == "shl.com/a";
  }

  lemma SlashLiteral()
    ensures DropParams("/a;x/") == "/a;x/" && RStripChar("/a;x/", '/') == "/a;x"
  {
    var p := "/a;x/";
    assert SegmentStart(p) == 5;
    assert p[..4] == "/a;x";
    assert RStripChar(p, '/') == RStripChar(p[..4], '/');
  }

  lemma ParamsLiteral()
    ensures DropParams("/a;x") == "/a" && RStripChar("/a", '/') == "/a"
  {
    var p := "/a;x";
    assert p[..3] == "/a;" && p[..2] == "/a" && p[..1] == "/";
    assert SegmentStart(p) == SegmentStart(p[..3]);
    assert SegmentStart(p[..3]) == SegmentStart(p[..2]);
    assert SegmentStart(p[..2]) == SegmentStart(p[..1]);
    assert RunEnd(NotSemicolon, p, 1) == 2;
  }

  lemma PlainWithSlash()
    ensures NormText("shl.com/a;x/") == HostAndPath("shl.com/a;x/")
  {
    var r := "shl.com/a;x/";
    assert NoUpper(r) && IsStripped(r) && AllSafe(r);
    assert !HasWebScheme(r) by { assert r[0] == 's'; }
    NormOfPlain(r);
  }

  lemma PlainWithParams()
    ensures NormText("shl.com/a;x") == HostAndPath("shl.com/a;x")
  {
    var r := "shl.com/a;x";
    assert NoUpper(r) && IsStripped(r) && AllSafe(r);
    assert !HasWebScheme(r) by { assert r[0] == 's'; }
    NormOfPlain(r);
  }

  lemma NormOfPlain(r: string)
    requires NoUpper(r) && IsStripped(r) && !HasWebScheme(r) && AllSafe(r)
    ensures NormText(r) == HostAndPath(r)
  {
    PreparedOfPlain(r);
    FilterAllTrue(IsSafe, r);
  }

  /** `HostAndPath` of a text without '?' or '#', whose authority ends at `n`. */
  lemma HostAndPathParts(v: string, n: nat, path: string, kept: string)
    requires n <= |v| && v[n..] == path && (forall i :: 0 <= i < n ==> InAuthority(v[i]))
    requires path == [] || path[0] == '/'
    requires forall i :: 0 <= i < |path| ==> InPath(path[i])
    requires DropParams(path) == kept
    ensures HostAndPath(v) == v[..n] + RStripChar(kept, '/')
  {
    RunEndPast(InAuthority, v, 0, n);
    assert n < |v| ==> v[n] == path[0];
    assert RunEnd(InAuthority, v, 0) == n;
    assert forall i :: n <= i < |v| ==> v[i] == path[i - n];
    RunEndPast(InPath, v, n, |v|);
    HostAndPathUnfold(v, n, |v|);
  }

  lemma StripAfterPrefix(pre: string, x: string)
    requires |pre| > 0 && !IsSpace(pre[0]) && !IsSpace(pre[|pre| - 1]) && IsStripped(x)
    ensures Strip(pre + x) == pre + x
  {
    var s := pre + x;
    assert !IsSpace(s[0]);
    assert !IsSpace(s[|s| - 1]) by {
      if x != [] { assert s[|s| - 1] == x[|x| - 1]; }
    }
    StrippedStrip(s);
  }

  lemma PreparedAfterScheme(scheme: string, y: string)
    requires scheme == "https://" || scheme == "http://"
    requires NoUpper(y) && IsStripped(y)
    ensures Prepared(scheme + y) == DropWww(y)
  {
    var s := scheme + y;
    StripAfterPrefix(scheme, y);
    LowerOfNoUpper(s);
    PreparedUnfold(s);
    if scheme == "http://" {
      DropHttp(y);
    } else {
      DropHttps(y);
    }
  }

  lemma PreparedUnfold(s: string)
    requires Strip(s) == s && Lower(s) == s
    ensures Prepared(s) == DropSchemePrefix(s)
  {
  }

  lemma DropHttps(y: string)
    ensures DropSchemePrefix("https://" + y) == DropWww(y)
  {
    var s := "https://" + y;
    assert "https://" <= s && s[8..] == y;
  }

  lemma DropHttp(y: string)
    ensures DropSchemePrefix("http://" + y) == DropWww(y)
  {
    var s := "http://" + y;
    assert !("https://" <= s) by { assert s[4] == ':'; }
    assert "http://" <= s && s[7..] == y;
  }

  /** A web scheme in front makes no difference, as long as no `www.` follows it. */
  lemma NormDropsScheme(scheme: string, x: string)
    requires scheme == "https://" || scheme == "http://"
    requires NoUpper(x) && IsStripped(x) && !HasWebScheme(x) && !("www." <= x)
    ensures NormText(scheme + x) == NormText(x)
  {
    PreparedAfterScheme(scheme, x);
    PreparedOfPlain(x);
  }

  /** `www.` right after a web scheme is dropped with it. */
  lemma NormDropsSchemeAndWww(scheme: string, x: string)
    requires scheme == "https://" || scheme == "http://"
    requires NoUpper(x) && IsStripped(x) && !HasWebScheme(x)
    ensures NormText(scheme + ("www." + x)) == NormText(x)
  {
    var y := "www." + x;
    assert IsStripped(y) by {
      if x != [] { assert y[|y| - 1] == x[|x| - 1]; }
    }
    PreparedAfterScheme(scheme, y);
    assert "www." <= y && y[4..] == x;
    PreparedOfPlain(x);
  }

  /** Without a scheme in front, a leading `www.` stays. */
  lemma NormKeepsBareWww(x: string)
    requires NoUpper(x) && IsStripped(x)
    ensures "www." <= NormText("www." + x)
  {
    var y := "www." + x;
    assert IsStripped(y) by {
      if x != [] { assert y[|y| - 1] == x[|x| - 1]; }
    }
    assert !HasWebScheme(y) by { assert y[0] == 'w'; }
    PreparedOfPlain(y);
    AuthorityKeepsWww(y);
  }

  lemma AuthorityKeepsWww(y: string)
    requires "www." <= y
    ensures "www." <= AuthorityAndPath(y)
  {
    var v := Filter(IsSafe, y);
    assert y == "www." + y[4..];
    FilterConcat(IsSafe, "www.", y[4..]);
    FilterAllTrue(IsSafe, "www.");
    assert "www." <= v;
    RunEndPast(InAuthority, v, 0, 4);
  }

  // ---------------------------------------------------------------------
  // Slugs
  // ---------------------------------------------------------------------

  /** `urlparse(u).path.strip("/")` */
  function PathOf(u: string): string
  {
    StripChar(UrlPath(u), '/')
  }

  predicate IsSlugChar(c: char) { IsLowerLetter(c) || IsDigit(c) }

  /** `re.sub(r"[^a-z0-9]+", "-", s)`: every run of other characters becomes one '-'. */
  function CollapseToDash(s: string): (r: string)
    ensures forall i :: 0 <= i < |r| ==> IsSlugChar(r[i]) || r[i] == '-'
    ensures forall i :: 0 <= i < |r| - 1 ==> r[i] == '-' ==> r[i + 1] != '-'
    ensures r != [] && s != [] ==> (r[0] == '-' <==> !IsSlugChar(s[0]))
    ensures s != [] ==> r != []
    decreases |s|
  {
    if s == [] then []
    else if IsSlugChar(s[0]) then [s[0]] + CollapseToDash(s[1..])
    else
      var e := RunEnd(c => !IsSlugChar(c), s, 0);
      var tail := CollapseToDash(s[e..]);
      assert tail != [] ==> tail[0] != '-' by {
        if tail != [] { assert IsSlugChar(s[e..][0]); }
      }
      "-" + tail
  }

  /** `re.sub(r"[^a-z0-9]+", "-", s).strip("-")` */
  function Slug(s: string): (r: string)
  {
    StripChar(CollapseToDash(s), '-')
  }

  /** A slug: only [a-z0-9-], no '-' at either end, never two in a row. */
  predicate IsSlug(s: string)
  {
    (forall i :: 0 <= i < |s| ==> IsSlugChar(s[i]) || s[i] == '-')
    && (s == [] || (s[0] != '-' && s[|s| - 1] != '-'))
    && (forall i :: 0 <= i < |s| - 1 ==> s[i] == '-' ==> s[i + 1] != '-')
  }

  lemma SlugIsSlug(s: string)
    ensures IsSlug(Slug(s))
  {
    var c := CollapseToDash(s);
    assert DashRuns(c);
    StripLeftDashes(c);
    StripRightDashes(StripLeftWith(Is('-'), c));
  }

  lemma StripLeftDashes(c: string)
    requires DashRuns(c)
    ensures var l := StripLeftWith(Is('-'), c); DashRuns(l) && (l == [] || l[0] != '-')
  {
    var l := StripLeftWith(Is('-'), c);
    SliceDashRuns(c, |c| - |l|, |c|);
  }

  lemma StripRightDashes(l: string)
    requires DashRuns(l) && (l == [] || l[0] != '-')
    ensures IsSlug(StripRightWith(Is('-'), l))
  {
    var r := StripRightWith(Is('-'), l);
    SliceDashRuns(l, 0, |r|);
    assert r != [] ==> r[0] == l[0];
  }

  /** Only [a-z0-9-], never two '-' in a row. */
  predicate DashRuns(s: string)
  {
    (forall i :: 0 <= i < |s| ==> IsSlugChar(s[i]) || s[i] == '-')
    && (forall i :: 0 <= i < |s| - 1 ==> s[i] == '-' ==> s[i + 1] != '-')
  }

  lemma SliceDashRuns(s: string, a: nat, b: nat)
    requires DashRuns(s) && a <= b <= |s|
    ensures DashRuns(s[a..b])
  {
    assert forall i :: 0 <= i < b - a ==> s[a..b][i] == s[a + i];
  }

  /** A slug is its own slug. */
  lemma {:induction false} CollapseOfSlug(s: string)
    requires forall i :: 0 <= i < |s| ==> IsSlugChar(s[i]) || s[i] == '-'
    requires forall i :: 0 <= i < |s| - 1 ==> s[i] == '-' ==> s[i + 1] != '-'
    ensures CollapseToDash(s) == s
    decreases |s|
  {
    if s != [] {
      if IsSlugChar(s[0]) {
        CollapseOfSlug(s[1..]);
      } else {
        var e := RunEnd(c => !IsSlugChar(c), s, 0);
        assert e == 1 by {
          if |s| > 1 { assert s[1] != '-' && IsSlugChar(s[1]); }
        }
        CollapseOfSlug(s[1..]);
      }
    }
  }

  lemma SlugOfSlug(s: string)
    requires IsSlug(s)
    ensures Slug(s) == s
  {
    CollapseOfSlug(s);
  }

  /** The letters and digits of a slug are those of its source, in order. */
  lemma {:induction false} CollapseKeepsAlnum(s: string)
    ensures SlugChars(CollapseToDash(s)) == SlugChars(s)
    decreases |s|
  {
    if s != [] {
      if IsSlugChar(s[0]) {
        CollapseKeepsAlnum(s[1..]);
        SlugCharsCons(s);
        SlugCharsCons([s[0]] + CollapseToDash(s[1..]));
        assert ([s[0]] + CollapseToDash(s[1..]))[1..] == CollapseToDash(s[1..]);
      } else {
        var e := RunEnd(c => !IsSlugChar(c), s, 0);
        CollapseKeepsAlnum(s[e..]);
        SlugCharsSkip(s, e);
        var r := "-" + CollapseToDash(s[e..]);
        SlugCharsCons(r);
        assert r[1..] == CollapseToDash(s[e..]);
      }
    }
  }

  /** The letters and digits of `s`, in order. */
  function SlugChars(s: string): string
    decreases |s|
  {
    if s == [] then [] else (if IsSlugChar(s[0]) then [s[0]] else []) + SlugChars(s[1..])
  }

  lemma SlugCharsCons(s: string)
    requires s != []
    ensures SlugChars(s) == (if IsSlugChar(s[0]) then [s[0]] else []) + SlugChars(s[1..])
  {
  }

  lemma {:induction false} SlugCharsSkip(s: string, e: nat)
    requires e <= |s| && forall i :: 0 <= i < e ==> !IsSlugChar(s[i])
    ensures SlugChars(s) == SlugChars(s[e..])
    decreases e
  {
    if e > 0 {
      SlugCharsSkip(s[1..], e - 1);
      assert s[1..][e - 1..] == s[e..];
    }
  }

  lemma {:induction false} SlugCharsOfDashes(s: string)
    requires forall i :: 0 <= i < |s| ==> s[i] == '-'
    ensures SlugChars(s) == []
    decreases |s|
  {
    if s != [] {
      SlugCharsOfDashes(s[1..]);
    }
  }

  lemma {:induction false} SlugCharsAppend(a: string, b: string)
    ensures SlugChars(a + b) == SlugChars(a) + SlugChars(b)
    decreases |a|
  {
    if a != [] {
      assert (a + b)[1..] == a[1..] + b;
      SlugCharsAppend(a[1..], b);
    } else {
      assert a + b == b;
    }
  }

  /** The slug keeps every letter and digit of the source, in order, and nothing else but dashes. */
  lemma SlugKeepsAlnum(s: string)
    ensures SlugChars(Slug(s)) == SlugChars(s)
  {
    var c := CollapseToDash(s);
    CollapseKeepsAlnum(s);
    SlugCharsStripLeft(c);
    SlugCharsStripRight(StripLeftWith(Is('-'), c));
  }

  lemma SlugCharsStripLeft(c: string)
    ensures SlugChars(StripLeftWith(Is('-'), c)) == SlugChars(c)
  {
    var l := StripLeftWith(Is('-'), c);
    var k := |c| - |l|;
    assert c == c[..k] + l;
    SlugCharsAppend(c[..k], l);
    SlugCharsOfDashes(c[..k]);
  }

  lemma SlugCharsStripRight(l: string)
    ensures SlugChars(StripRightWith(Is('-'), l)) == SlugChars(l)
  {
    var r := StripRightWith(Is('-'), l);
    assert l == r + l[|r|..];
    SlugCharsAppend(r, l[|r|..]);
    SlugCharsOfDashes(l[|r|..]);
  }
}
