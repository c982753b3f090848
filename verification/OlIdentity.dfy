/** `parse_ol_identity`: the OpenLineage identity of a physical source, and when that identity
    is canonical. The URL is split as Python's `urllib.parse.urlparse` splits it. */
module OlIdentity {
  import opened Outcomes
  import opened Decimals
  import opened PythonStrings

  // ---------- Characters and strings ----------

  predicate IsLetter(c: char) { 'A' <= c <= 'Z' || 'a' <= c <= 'z' }

  predicate IsSchemeChar(c: char) {
    IsLetter(c) || IsDigit(c) || c == '+' || c == '-' || c == '.'
  }

  predicate IsLineBreakOrTab(c: char) { c == '\t' || c == '\r' || c == '\n' }

  function DropControls(s: string): string {
    if s != [] && s[0] <= ' ' then DropControls(s[1..]) else s
  }

  function DropSlashes(s: string): string {
    if s != [] && s[0] == '/' then DropSlashes(s[1..]) else s
  }

  function WithoutBreaks(s: string): string {
    if s == [] then [] else (if IsLineBreakOrTab(s[0]) then [] else [s[0]]) + WithoutBreaks(s[1..])
  }

  /** The part before the first of the stop characters. */
  function TakeUntil(s: string, stops: string): (r: string)
    ensures |r| <= |s|
  {
    if s == [] || s[0] in stops then [] else [s[0]] + TakeUntil(s[1..], stops)
  }

  /** The part from the first of the stop characters on. */
  function DropUntil(s: string, stops: string): string {
    if s == [] || s[0] in stops then s else DropUntil(s[1..], stops)
  }

  /** The part after the first `c`, empty if there is none. */
  function After(s: string, c: char): string {
    var d := DropUntil(s, [c]);
    if d == [] then [] else d[1..]
  }

  /** The part after the last `c`, everything if there is none. */
  function AfterLast(s: string, c: char): (r: string)
    ensures |r| <= |s|
  {
    if s == [] || s[|s| - 1] == c then [] else AfterLast(s[..|s| - 1], c) + [s[|s| - 1]]
  }

  // ---------- Splitting a URL ----------

  datatype Url = Url(scheme: string, netloc: string, path: string)

  /** The schemes whose last path segment may carry `;` parameters. */
  predicate UsesParams(scheme: string) {
    scheme in ["", "ftp", "hdl", "prospero", "http", "imap", "https", "shttp", "rtsp", "rtspu", "sip", "sips", "mms",
        "sftp", "tel"]
  }

  function CutParams(path: string): string {
    var segment := AfterLast(path, '/');
    path[..|path| - |segment|] + TakeUntil(segment, ";")
  }

  predicate IsScheme(s: string) {
    s != [] && IsLetter(s[0]) && forall i :: 0 <= i < |s| ==> IsSchemeChar(s[i])
  }

  function SplitScheme(url: string): (string, string) {
    var before := TakeUntil(url, ":");
    if |before| < |url| && IsScheme(before) then (Lower(before), url[|before| + 1..]) else ("", url)
  }

  function SplitAuthority(rest: string): (string, string) {
    if "//" <= rest then (TakeUntil(rest[2..], "/?#"), DropUntil(rest[2..], "/?#")) else ("", rest)
  }

  /** None where `urlparse` raises: an unbalanced bracket in the authority. */
  function SplitUrl(url: string): Option<Url> {
    var (scheme, rest) := SplitScheme(url);
    var (netloc, after) := SplitAuthority(rest);
    if ('[' in netloc) != (']' in netloc) then None
    else
      var path := TakeUntil(TakeUntil(after, "#"), "?");
      Some(Url(scheme, netloc, if UsesParams(scheme) then CutParams(path) else path))
  }

  /** The host and the port text of an authority. */
  function HostAndPort(netloc: string): (string, string) {
    var info := AfterLast(netloc, '@');
    if '[' in info then
      var inside := After(info, '[');
      (TakeUntil(inside, "]"), After(After(inside, ']'), ':'))
    else (TakeUntil(info, ":"), After(info, ':'))
  }

  /** `parsed.hostname or "localhost"`: in lower case up to a zone marker. */
  function HostName(host: string): string {
    if host == "" then "localhost" else Lower(TakeUntil(host, "%")) + DropUntil(host, "%")
  }

  /** `parsed.port`, 0 for none; None where it raises. */
  function PortNumber(text: string): Option<nat> {
    if text == "" then Some(0)
    else if !AllDigits(text) || Decimal(text) > 65535 then None
    else Some(Decimal(text))
  }

  // ---------- The identity of a source ----------

  /** Drops the `jdbc:` prefix and renames its PostgreSQL scheme. */
  function WithoutJdbc(s: string): string {
    if "jdbc:postgresql://" <= s then "postgres://" + s[18..]
    else if "jdbc:" <= s then s[5..]
    else s
  }

  function Tidy(source: string): string {
    WithoutBreaks(DropControls(WithoutJdbc(Strip(source))))
  }

  datatype Parts = Parts(scheme: string, netloc: string, host: string, port: nat, name: string)

  /** What the identity is made of; None where `parse_ol_identity` raises. */
  function Locate(source: string): Option<Parts> {
    match SplitUrl(Tidy(source))
    case None => None
    case Some(u) =>
      var (host, port) := HostAndPort(u.netloc);
      match PortNumber(port)
      case None => None
      case Some(number) =>
        var path := DropSlashes(u.path);
        Some(Parts(if u.scheme == "" then "unknown" else u.scheme, u.netloc, HostName(host), number,
                   if path == "" then u.netloc else path))
  }

  datatype Identity = Identity(namespace: string, name: string)

  function PortSuffix(port: nat): string {
    if port == 0 then "" else ":" + Format(port)
  }

  function ParseOlIdentity(source: string): Option<Identity> {
    match Locate(source)
    case None => None
    case Some(p) => Some(Identity(p.scheme + "://" + p.host + PortSuffix(p.port), p.name))
  }

  /** The identity written as one source again. */
  function AsSource(id: Identity): string {
    id.namespace + "/" + id.name
  }

  // ---------- Taking strings apart ----------

  /** No character of `s` is a stop. */
  predicate Free(s: string, stops: string) {
    forall i :: 0 <= i < |s| ==> s[i] !in stops
  }

  lemma {:induction false} TakeUntilAt(a: string, b: string, stops: string)
    requires Free(a, stops) && (b == [] || b[0] in stops)
    ensures TakeUntil(a + b, stops) == a && DropUntil(a + b, stops) == b
  {
    if a == [] {
      assert a + b == b;
    } else {
      assert a[0] !in stops && Free(a[1..], stops);
      TakeUntilAt(a[1..], b, stops);
      assert (a + b)[1..] == a[1..] + b;
    }
  }

  lemma {:induction false} TakeUntilParts(s: string, stops: string)
    ensures TakeUntil(s, stops) + DropUntil(s, stops) == s
    ensures Free(TakeUntil(s, stops), stops)
    ensures DropUntil(s, stops) == [] || DropUntil(s, stops)[0] in stops
  {
    if s != [] && s[0] !in stops { TakeUntilParts(s[1..], stops); }
  }

  lemma {:induction false} AfterLastOf(a: string, b: string, c: char)
    requires c !in b && (a == [] || a[|a| - 1] == c)
    ensures AfterLast(a + b, c) == b
  {
    if b == [] {
      assert a + b == a;
    } else {
      assert (a + b)[..|a + b| - 1] == a + b[..|b| - 1];
      AfterLastOf(a, b[..|b| - 1], c);
    }
  }

  lemma {:induction false} AfterLastParts(s: string, c: char)
    ensures c !in AfterLast(s, c)
    ensures var k := |s| - |AfterLast(s, c)|; s[k..] == AfterLast(s, c) && (k == 0 || s[k - 1] == c)
  {
    if s != [] && s[|s| - 1] != c { AfterLastParts(s[..|s| - 1], c); }
  }

  lemma {:induction false} NoBreaksToRemove(s: string)
    requires forall i :: 0 <= i < |s| ==> !IsLineBreakOrTab(s[i])
    ensures WithoutBreaks(s) == s
  {
    if s != [] { NoBreaksToRemove(s[1..]); }
  }

  lemma {:induction false} BreaksAreGone(s: string)
    ensures forall i :: 0 <= i < |WithoutBreaks(s)| ==> !IsLineBreakOrTab(WithoutBreaks(s)[i])
  {
    if s != [] { BreaksAreGone(s[1..]); }
  }
}
