/** When the identity of a source, written as a source, has that same identity. */
module CanonicalIdentities {
  import opened Outcomes
  import opened Decimals
  import opened OlIdentity
  import opened PythonStrings

  // ---------- The characters of each part ----------

  /** What a host keeps of a plain authority. */
  predicate HostChar(c: char) {
    !IsSpace(c) && c != '/' && c != '?' && c != '#' && c != '@' && c != ':' && c != '[' && c != ']' && c != ';'
  }

  predicate HostChars(s: string) {
    forall i :: 0 <= i < |s| ==> HostChar(s[i])
  }

  predicate NameChar(c: char) {
    c != '?' && c != '#' && !IsLineBreakOrTab(c)
  }

  predicate NameChars(s: string) {
    forall i :: 0 <= i < |s| ==> NameChar(s[i])
  }

  predicate NoBreaks(s: string) {
    forall i :: 0 <= i < |s| ==> !IsLineBreakOrTab(s[i])
  }

  /** No white space, no bracketed address, no semicolon. */
  predicate PlainAuthority(netloc: string) {
    forall i :: 0 <= i < |netloc| ==> !IsSpace(netloc[i]) && netloc[i] != '[' && netloc[i] != ']' && netloc[i] != ';'
  }

  /** Nothing, or a colon and digits. */
  predicate PortText(suffix: string) {
    suffix == "" || (suffix[0] == ':' && AllDigits(suffix[1..]))
  }

  function PortDigits(suffix: string): string {
    if suffix == "" then "" else suffix[1..]
  }

  /** The number after the colon, 0 if there is none. */
  function PortValue(suffix: string): nat {
    if AllDigits(PortDigits(suffix)) then Decimal(PortDigits(suffix)) else 0
  }

  predicate Trimmed(s: string) {
    s == "" || !IsSpace(s[|s| - 1])
  }

  predicate NothingToCut(scheme: string, name: string) {
    UsesParams(scheme) ==> ';' !in AfterLast(name, '/')
  }

  function Compose(scheme: string, authority: string, rest: string): string {
    scheme + (":" + ("//" + (authority + ("/" + rest))))
  }

  // ---------- Parsing `scheme://host[:port]/rest` ----------

  lemma TidyNoop(s: string)
    requires s != [] && IsLetter(s[0]) && NoBreaks(s) && !("jdbc:" <= s)
    ensures Tidy(s) == WithoutBreaks(DropControls(WithoutJdbc(StripRight(s))))
    ensures !IsSpace(s[|s| - 1]) ==> Tidy(s) == s
  {
    assert !IsSpace(s[0]);
    assert StripLeft(s) == s;
    if !IsSpace(s[|s| - 1]) {
      assert StripRight(s) == s;
      JdbcPrefix(s);
      assert DropControls(s) == s;
      NoBreaksToRemove(s);
    }
  }

  lemma JdbcPrefix(s: string)
    ensures "jdbc:postgresql://" <= s ==> "jdbc:" <= s
  {
    if "jdbc:postgresql://" <= s {
      assert forall i :: 0 <= i < 5 ==> "jdbc:"[i] == "jdbc:postgresql://"[i];
    }
  }

  lemma ComposeHead(scheme: string, authority: string, rest: string)
    requires IsScheme(scheme)
    ensures TakeUntil(Compose(scheme, authority, rest), ":") == scheme
    ensures scheme != "jdbc" ==> !("jdbc:" <= Compose(scheme, authority, rest))
  {
    var tail := ":" + ("//" + (authority + ("/" + rest)));
    assert Free(scheme, ":");
    TakeUntilAt(scheme, tail, ":");
    var s := Compose(scheme, authority, rest);
    if "jdbc:" <= s {
      assert s == "jdbc" + s[4..] && s[4] == ':';
      TakeUntilAt("jdbc", s[4..], ":");
    }
  }

  lemma AuthorityChars(host: string, suffix: string)
    requires HostChars(host) && PortText(suffix)
    ensures var info := host + suffix;
      '[' !in info && ']' !in info && '@' !in info && Free(info, "/?#")
  {
    var info := host + suffix;
    forall i | 0 <= i < |info| ensures HostChar(info[i]) || info[i] == ':' || IsDigit(info[i]) {
      if i < |host| { assert info[i] == host[i]; }
      else if i > |host| { assert info[i] == suffix[1..][i - |host| - 1]; }
    }
  }

  lemma AuthorityParses(host: string, suffix: string)
    requires HostChars(host) && PortText(suffix)
    ensures HostAndPort(host + suffix) == (host, PortDigits(suffix))
    ensures '[' !in host + suffix && ']' !in host + suffix && Free(host + suffix, "/?#")
  {
    AuthorityChars(host, suffix);
    assert Free(host, ":");
    TakeUntilAt(host, suffix, ":");
    hide TakeUntil, DropUntil, AfterLast, HostChars;
    var info := host + suffix;
    AfterLastOf([], info, '@');
    assert [] + info == info;
    assert [':'] == ":";
  }

  lemma AfterSlash(rest: string)
    ensures AfterLast("/" + rest, '/') == AfterLast(rest, '/')
  {
    var seg := AfterLast(rest, '/');
    AfterLastParts(rest, '/');
    var k := |rest| - |seg|;
    var a := "/" + rest[..k];
    assert a + seg == "/" + rest;
    AfterLastOf(a, seg, '/');
  }

  lemma NoParamsToCut(path: string)
    requires ';' !in AfterLast(path, '/')
    ensures CutParams(path) == path
  {
    var seg := AfterLast(path, '/');
    AfterLastParts(path, '/');
    AllTaken(seg, ";");
    hide AfterLast, TakeUntil;
    assert path[..|path| - |seg|] + path[|path| - |seg|..] == path;
  }

  lemma AllTaken(s: string, stops: string)
    requires Free(s, stops)
    ensures TakeUntil(s, stops) == s
  {
    TakeUntilAt(s, [], stops);
    assert s + [] == s;
  }

  lemma PathKept(path: string)
    requires NameChars(path)
    ensures TakeUntil(TakeUntil(path, "#"), "?") == path
  {
    assert Free(path, "#") && Free(path, "?");
    AllTaken(path, "#");
    AllTaken(path, "?");
  }

  lemma SchemeSplits(scheme: string, authority: string, rest: string)
    requires IsScheme(scheme)
    ensures SplitScheme(Compose(scheme, authority, rest)) == (Lower(scheme), "//" + (authority + ("/" + rest)))
  {
    ComposeHead(scheme, authority, rest);
    hide TakeUntil, IsScheme, Lower;
    var s := Compose(scheme, authority, rest);
    assert s[|scheme| + 1..] == "//" + (authority + ("/" + rest));
  }

  lemma AuthoritySplits(authority: string, rest: string)
    requires Free(authority, "/?#")
    ensures SplitAuthority("//" + (authority + ("/" + rest))) == (authority, "/" + rest)
  {
    TakeUntilAt(authority, "/" + rest, "/?#");
    hide TakeUntil, DropUntil, Free;
    var s := "//" + (authority + ("/" + rest));
    assert s[2..] == authority + ("/" + rest);
  }

  lemma ComposedSplits(scheme: string, authority: string, rest: string)
    requires IsScheme(scheme) && Free(authority, "/?#") && '[' !in authority && ']' !in authority
    requires NameChars(rest)
    ensures SplitUrl(Compose(scheme, authority, rest)) ==
      Some(Url(Lower(scheme), authority, if UsesParams(Lower(scheme)) then CutParams("/" + rest) else "/" + rest))
  {
    SchemeSplits(scheme, authority, rest);
    AuthoritySplits(authority, rest);
    assert NameChars("/" + rest);
    PathKept("/" + rest);
    hide SplitScheme, SplitAuthority, TakeUntil, CutParams, UsesParams, Lower, Compose;
  }

  lemma NothingIsCut(scheme: string, rest: string)
    requires NothingToCut(scheme, rest)
    ensures (if UsesParams(scheme) then CutParams("/" + rest) else "/" + rest) == "/" + rest
  {
    AfterSlash(rest);
    if UsesParams(scheme) { NoParamsToCut("/" + rest); }
  }

  lemma ComposedChars(scheme: string, host: string, suffix: string, rest: string)
    requires IsScheme(scheme) && HostChars(host) && PortText(suffix) && NoBreaks(rest)
    ensures NoBreaks(Compose(scheme, host + suffix, rest))
  {
    assert NoBreaks(scheme) && NoBreaks(host);
    assert NoBreaks(suffix) by {
      assert forall i :: 0 < i < |suffix| ==> suffix[i] == suffix[1..][i - 1];
    }
    Joined(host, suffix);
    Joined("/", rest);
    Joined(host + suffix, "/" + rest);
    Joined("//", host + suffix + ("/" + rest));
    Joined(":", "//" + (host + suffix + ("/" + rest)));
    Joined(scheme, ":" + ("//" + (host + suffix + ("/" + rest))));
  }

  lemma Joined(a: string, b: string)
    requires NoBreaks(a) && NoBreaks(b)
    ensures NoBreaks(a + b)
  {
  }

  /** The parts of a plainly written source are the parts it is written with: the scheme and
      the host in lower case, the port as a number, and the path without its leading slashes,
      or the authority if that is empty. It raises exactly when the port is out of range. */
  lemma PlainSourceParts(scheme: string, host: string, suffix: string, rest: string)
    requires IsScheme(scheme) && scheme != "jdbc" && HostChars(host) && PortText(suffix) && NameChars(rest)
    requires NothingToCut(Lower(scheme), rest) && Trimmed(rest)
    ensures Locate(Compose(scheme, host + suffix, rest)) ==
      if PortValue(suffix) > 65535 then None
      else Some(Parts(Lower(scheme), host + suffix, HostName(host), PortValue(suffix),
                      if DropSlashes(rest) == "" then host + suffix else DropSlashes(rest)))
  {
    var s := Compose(scheme, host + suffix, rest);
    ComposedIsTidy(scheme, host, suffix, rest);
    AuthorityParses(host, suffix);
    PortTextNumber(suffix);
    OneSlashDropped(rest);
    NothingIsCut(Lower(scheme), rest);
    hide Compose, Tidy, SplitUrl, HostAndPort, HostName, HostChars, NameChars, NothingToCut, TakeUntil, Lower, Free,
      IsScheme, PortNumber, PortText, PortDigits, DropSlashes, CutParams, UsesParams;
    SchemeIsNotEmpty(scheme);
    ComposedSplits(scheme, host + suffix, rest);
  }

  lemma SchemeIsNotEmpty(scheme: string)
    requires IsScheme(scheme)
    ensures Lower(scheme) != ""
  {
  }

  lemma ComposedIsTidy(scheme: string, host: string, suffix: string, rest: string)
    requires IsScheme(scheme) && scheme != "jdbc" && HostChars(host) && PortText(suffix) && NoBreaks(rest)
    requires Trimmed(rest)
    ensures Tidy(Compose(scheme, host + suffix, rest)) == Compose(scheme, host + suffix, rest)
  {
    var s := Compose(scheme, host + suffix, rest);
    ComposeHead(scheme, host + suffix, rest);
    ComposedChars(scheme, host, suffix, rest);
    assert s[0] == scheme[0] && s[|s| - 1] == (if rest == "" then '/' else rest[|rest| - 1]);
    hide Compose, Tidy;
    TidyNoop(s);
  }

  lemma PortTextNumber(suffix: string)
    requires PortText(suffix)
    ensures PortNumber(PortDigits(suffix)) == if PortValue(suffix) > 65535 then None else Some(PortValue(suffix))
  {
  }

  lemma OneSlashDropped(rest: string)
    ensures DropSlashes("/" + rest) == DropSlashes(rest)
  {
    assert ("/" + rest)[1..] == rest;
  }

  // ---------- What a first parse leaves ----------

  predicate SchemeChars(s: string) {
    forall i :: 0 <= i < |s| ==> IsSchemeChar(s[i])
  }

  lemma LowerSchemeChar(c: char)
    requires IsSchemeChar(c)
    ensures SchemeChars(LowerChar(c)) && (IsLetter(c) ==> IsLetter(LowerChar(c)[0]))
  {
  }

  lemma {:induction false} LowerKeepsSchemeChars(s: string)
    requires SchemeChars(s)
    ensures SchemeChars(Lower(s))
  {
    if s != [] {
      LowerSchemeChar(s[0]);
      LowerKeepsSchemeChars(s[1..]);
      hide LowerChar, IsSchemeChar;
    }
  }

  lemma LowerSchemeIsScheme(s: string)
    requires IsScheme(s)
    ensures IsScheme(Lower(s)) && Lower(Lower(s)) == Lower(s)
  {
    LowerTwice(s);
    assert SchemeChars(s);
    LowerKeepsSchemeChars(s);
    LowerSchemeChar(s[0]);
    hide LowerChar, IsSchemeChar;
    assert Lower(s)[0] == LowerChar(s[0])[0];
  }

  lemma UnknownScheme()
    ensures IsScheme("unknown") && Lower("unknown") == "unknown" && !UsesParams("unknown")
  {
    UnknownTakesNoParams();
    hide UsesParams, Lower;
    SmallLettersAreLow("unknown");
  }

  lemma UnknownTakesNoParams()
    ensures !UsesParams("unknown")
  {
    assert |"unknown"| == 7;
  }

  lemma LowerHostIsSettled(host: string)
    requires host != "" && '%' !in host && AllLow(host)
    ensures HostName(host) == host
  {
    LowerOfLow(host);
    TakeUntilAt(host, "", "%");
    assert host + "" == host;
  }

  lemma LocalHostIsSettled()
    ensures HostChars("localhost") && HostName("localhost") == "localhost"
  {
    hide HostName;
    LowerHostIsSettled("localhost");
  }

  lemma LowerHostChar(c: char)
    requires HostChar(c)
    ensures HostChars(LowerChar(c)) && (c != '%' ==> '%' !in LowerChar(c))
  {
  }

  lemma {:induction false} LowerKeepsHostChars(s: string)
    requires HostChars(s)
    ensures HostChars(Lower(s)) && ('%' !in s ==> '%' !in Lower(s))
  {
    if s != [] {
      LowerHostChar(s[0]);
      LowerKeepsHostChars(s[1..]);
      hide LowerChar, HostChar;
    }
  }

  lemma HostNameIsSettled(host: string)
    requires HostChars(host)
    ensures HostName(host) != "" && HostChars(HostName(host)) && HostName(HostName(host)) == HostName(host)
  {
    if host == "" {
      LocalHostIsSettled();
    } else {
      var t, d := TakeUntil(host, "%"), DropUntil(host, "%");
      TakeUntilParts(host, "%");
      hide TakeUntil, DropUntil;
      assert forall i :: 0 <= i < |t| ==> t[i] == host[i];
      assert forall i :: 0 <= i < |d| ==> d[i] == host[|t| + i];
      LowerTwice(t);
      LowerKeepsHostChars(t);
      hide Lower, HostChar;
      assert '%' !in Lower(t);
      TakeUntilAt(Lower(t), d, "%");
      assert HostName(host) == Lower(t) + d;
      assert |Lower(t) + d| >= |host|;
    }
  }

  lemma HostOfPlainAuthority(netloc: string)
    requires PlainAuthority(netloc) && Free(netloc, "/?#")
    ensures HostChars(HostAndPort(netloc).0)
  {
    var info := AfterLast(netloc, '@');
    AfterLastParts(netloc, '@');
    var k := |netloc| - |info|;
    assert forall i :: 0 <= i < |info| ==> info[i] == netloc[k + i];
    assert '[' !in info;
    var host := TakeUntil(info, ":");
    TakeUntilParts(info, ":");
    forall i | 0 <= i < |host| ensures HostChar(host[i]) {
      assert host[i] == info[i] && host[i] !in ":" && netloc[k + i] !in "/?#" && info[i] != '@';
    }
  }

  lemma CutParamsParts(path: string)
    requires NameChars(path)
    ensures NameChars(CutParams(path)) && ';' !in AfterLast(CutParams(path), '/')
  {
    CutParamsIsPrefix(path);
    var seg := AfterLast(path, '/');
    var k := |path| - |seg|;
    AfterLastParts(path, '/');
    TakeUntilParts(seg, ";");
    var kept := TakeUntil(seg, ";");
    assert kept == seg[..|kept|];
    hide AfterLast, TakeUntil, DropUntil, NameChar;
    KeptHasNoStops(seg, kept);
    AfterLastOf(path[..k], kept, '/');
  }

  lemma CutParamsIsPrefix(path: string)
    ensures CutParams(path) <= path
  {
    var seg := AfterLast(path, '/');
    AfterLastParts(path, '/');
    TakeUntilParts(seg, ";");
    var k, kept := |path| - |seg|, TakeUntil(seg, ";");
    assert kept == seg[..|kept|];
    hide AfterLast, TakeUntil, DropUntil;
    assert path[..k] + kept == path[..k + |kept|];
  }

  lemma KeptHasNoStops(seg: string, kept: string)
    requires '/' !in seg && kept <= seg && Free(kept, ";")
    ensures '/' !in kept && ';' !in kept
  {
    assert forall i :: 0 <= i < |kept| ==> kept[i] == seg[i] && kept[i] !in ";";
  }

  lemma PathChars(after: string)
    requires NoBreaks(after)
    ensures NameChars(TakeUntil(TakeUntil(after, "#"), "?"))
  {
    var a := TakeUntil(after, "#");
    TakeUntilParts(after, "#");
    TakeUntilParts(a, "?");
    var b := TakeUntil(a, "?");
    forall i | 0 <= i < |b| ensures NameChar(b[i]) {
      assert b[i] == a[i] == after[i] && a[i] !in "#" && b[i] !in "?";
    }
  }

  lemma SplitSchemeParts(url: string)
    requires NoBreaks(url)
    ensures var (scheme, rest) := SplitScheme(url);
      NoBreaks(rest) && (scheme == "" || (IsScheme(scheme) && Lower(scheme) == scheme))
  {
    var before := TakeUntil(url, ":");
    if |before| < |url| && IsScheme(before) { LowerSchemeIsScheme(before); }
    hide TakeUntil, IsScheme, Lower;
  }

  lemma SplitAuthorityParts(rest: string)
    requires NoBreaks(rest)
    ensures var (netloc, after) := SplitAuthority(rest); Free(netloc, "/?#") && NoBreaks(netloc) && NoBreaks(after)
  {
    if "//" <= rest {
      var r := rest[2..];
      var t, d := TakeUntil(r, "/?#"), DropUntil(r, "/?#");
      TakeUntilParts(r, "/?#");
      assert forall i :: 0 <= i < |t| ==> t[i] == r[i];
      assert forall i :: 0 <= i < |d| ==> d[i] == r[|t| + i];
    }
  }

  lemma SplitUrlParts(url: string)
    requires NoBreaks(url) && SplitUrl(url).Some?
    ensures var u := SplitUrl(url).value;
      && (u.scheme == "" || (IsScheme(u.scheme) && Lower(u.scheme) == u.scheme))
      && Free(u.netloc, "/?#") && NoBreaks(u.netloc) && NameChars(u.path) && NothingToCut(u.scheme, u.path)
  {
    SplitSchemeParts(url);
    var (scheme, rest) := SplitScheme(url);
    SplitAuthorityParts(rest);
    var (netloc, after) := SplitAuthority(rest);
    PathChars(after);
    CutParamsParts(TakeUntil(TakeUntil(after, "#"), "?"));
    hide SplitScheme, SplitAuthority, TakeUntil, CutParams, UsesParams, IsScheme, Lower, NoBreaks, NameChars, Free,
        AfterLast;
  }

  lemma {:induction false} DropSlashesParts(scheme: string, path: string)
    requires NameChars(path) && NothingToCut(scheme, path)
    ensures var name := DropSlashes(path);
      NameChars(name) && NothingToCut(scheme, name) && (name == "" || name[0] != '/')
  {
    if path != [] && path[0] == '/' {
      assert path == "/" + path[1..];
      AfterSlash(path[1..]);
      DropSlashesParts(scheme, path[1..]);
    }
  }

  /** The authority as a name. */
  lemma AuthorityIsName(scheme: string, netloc: string)
    requires PlainAuthority(netloc) && Free(netloc, "/?#")
    ensures NameChars(netloc) && NothingToCut(scheme, netloc) && (netloc == "" || netloc[0] != '/')
  {
    assert forall i :: 0 <= i < |netloc| ==> netloc[i] !in "/?#";
    assert NameChars(netloc);
    AfterLastParts(netloc, '/');
    var seg := AfterLast(netloc, '/');
    var k := |netloc| - |seg|;
    assert forall i :: 0 <= i < |seg| ==> seg[i] == netloc[k + i];
    assert ';' !in seg;
  }

  /** The parts any plain source leaves are in the form a plain source is written with. */
  predicate Settled(p: Parts) {
    && IsScheme(p.scheme) && Lower(p.scheme) == p.scheme
    && p.host != "" && HostChars(p.host) && HostName(p.host) == p.host && p.port <= 65535
    && NameChars(p.name) && NothingToCut(p.scheme, p.name) && (p.name == "" || p.name[0] != '/')
  }

  lemma PartsAreSettled(source: string)
    requires Locate(source).Some? && PlainAuthority(Locate(source).value.netloc)
    ensures Settled(Locate(source).value)
  {
    TidyHasNoBreaks(source);
    UnknownScheme();
    hide Tidy, SplitUrl, HostAndPort, HostName, IsScheme, Lower, HostChars, NameChars, Free, PlainAuthority, NoBreaks,
        UsesParams,
      DropSlashes, PortNumber, NothingToCut;
    SplitUrlParts(Tidy(source));
    var u := SplitUrl(Tidy(source)).value;
    HostOfPlainAuthority(u.netloc);
    HostNameIsSettled(HostAndPort(u.netloc).0);
    var scheme := if u.scheme == "" then "unknown" else u.scheme;
    UnknownNeedsNoCut(u.scheme, u.path);
    DropSlashesParts(scheme, u.path);
    AuthorityIsName(scheme, u.netloc);
    PortInRange(HostAndPort(u.netloc).1);
  }

  lemma TidyHasNoBreaks(source: string)
    ensures NoBreaks(Tidy(source))
  {
    BreaksAreGone(DropControls(WithoutJdbc(Strip(source))));
    hide WithoutBreaks, DropControls, WithoutJdbc, Strip;
  }

  lemma UnknownNeedsNoCut(scheme: string, path: string)
    requires NothingToCut(scheme, path)
    ensures NothingToCut(if scheme == "" then "unknown" else scheme, path)
  {
    UnknownScheme();
    hide UsesParams, AfterLast;
  }

  lemma PortInRange(text: string)
    ensures PortNumber(text).Some? ==> PortNumber(text).value <= 65535
  {
  }

  // ---------- Parsing an identity again ----------

  function IdentityOf(p: Parts): Identity {
    Identity(p.scheme + "://" + p.host + PortSuffix(p.port), p.name)
  }

  lemma IdentityAsSource(p: Parts)
    ensures AsSource(IdentityOf(p)) == Compose(p.scheme, p.host + PortSuffix(p.port), p.name)
  {
    var suffix := PortSuffix(p.port);
    hide PortSuffix;
    assert p.scheme + "://" + p.host + suffix + "/" + p.name == p.scheme +
        (":" + ("//" + ((p.host + suffix) + ("/" + p.name))));
  }

  lemma PortSuffixReads(port: nat)
    ensures PortText(PortSuffix(port)) && PortValue(PortSuffix(port)) == port
  {
    FormatRoundTrips(port);
    hide Format;
    assert (":" + Format(port))[1..] == Format(port);
  }

  lemma {:induction false} StripRightConcat(a: string, b: string)
    requires a != [] && !IsSpace(a[|a| - 1])
    ensures StripRight(a + b) == a + StripRight(b)
  {
    if b == [] {
      assert a + b == a;
    } else if IsSpace(b[|b| - 1]) {
      assert (a + b)[..|a + b| - 1] == a + b[..|b| - 1];
      StripRightConcat(a, b[..|b| - 1]);
    }
  }

  lemma {:induction false} StripRightParts(scheme: string, s: string)
    requires NameChars(s) && NothingToCut(scheme, s)
    ensures var r := StripRight(s);
      && NameChars(r) && NothingToCut(scheme, r) && r <= s && Trimmed(r)
      && (r == "" && s != "" ==> IsSpace(s[0])) && (r == s <==> Trimmed(s))
  {
    if s != [] && IsSpace(s[|s| - 1]) {
      var init := s[..|s| - 1];
      assert AfterLast(s, '/') == AfterLast(init, '/') + [s[|s| - 1]];
      StripRightParts(scheme, init);
    }
  }

  function ComposeFront(scheme: string, authority: string): string {
    scheme + (":" + ("//" + (authority + "/")))
  }

  lemma TrailingSpaceIsIgnored(scheme: string, authority: string, name: string)
    requires IsScheme(scheme)
    ensures Tidy(Compose(scheme, authority, name)) == Tidy(Compose(scheme, authority, StripRight(name)))
    ensures Tidy(Compose(scheme, authority, name)) ==
            WithoutBreaks(DropControls(WithoutJdbc(Compose(scheme, authority, StripRight(name)))))
  {
    var front := ComposeFront(scheme, authority);
    var short := StripRight(name);
    ComposedFront(scheme, authority, name);
    ComposedFront(scheme, authority, short);
    StripRightConcat(front, name);
    StripRightConcat(front, short);
    StripRightTwice(name);
    assert !IsSpace(scheme[0]);
    hide Compose, ComposeFront, WithoutBreaks, DropControls, WithoutJdbc, StripRight, IsScheme, IsSpace;
  }

  lemma ComposedFront(scheme: string, authority: string, name: string)
    requires IsScheme(scheme)
    ensures var front := ComposeFront(scheme, authority);
      && Compose(scheme, authority, name) == front + name && front[|front| - 1] == '/' && !IsSpace(front[|front| - 1])
      && (front + name)[0] == scheme[0] && StripLeft(front + name) == front + name
  {
    var front := ComposeFront(scheme, authority);
    assert scheme + (":" + ("//" + (authority + ("/" + name)))) == front + name;
    assert (front + name)[0] == scheme[0] && !IsSpace(scheme[0]);
  }

  lemma {:induction false} StripRightTwice(s: string)
    ensures StripRight(StripRight(s)) == StripRight(s)
  {
    if s != [] && IsSpace(s[|s| - 1]) { StripRightTwice(s[..|s| - 1]); }
  }

  /** What a second parse yields: the same parts, but for trailing white space of the name and
      an empty name, which becomes the authority. */
  lemma SecondParse(p: Parts)
    requires Settled(p) && p.scheme != "jdbc"
    ensures var authority := p.host + PortSuffix(p.port);
      ParseOlIdentity(AsSource(IdentityOf(p))) ==
        Some(IdentityOf(p).(name := if StripRight(p.name) == "" then authority else StripRight(p.name)))
  {
    SecondLocate(p);
    IdentityAsSource(p);
    hide AsSource, Locate, Compose, StripRight, PortSuffix, Settled;
  }

  lemma SecondLocate(p: Parts)
    requires Settled(p) && p.scheme != "jdbc"
    ensures var authority := p.host + PortSuffix(p.port);
      Locate(Compose(p.scheme, authority, p.name)) ==
        Some(Parts(p.scheme, authority, p.host, p.port, if StripRight(p.name) == "" then authority
            else StripRight(p.name)))
  {
    var suffix := PortSuffix(p.port);
    var short := StripRight(p.name);
    StripRightParts(p.scheme, p.name);
    PortSuffixReads(p.port);
    assert DropSlashes(short) == short;
    hide Tidy, Compose, SplitUrl, StripRight, PortSuffix, PortText, PortDigits, HostName, HostChars, NameChars,
        IsScheme, Lower, NothingToCut,
      DropSlashes, Trimmed, PortValue, AfterLast;
    PlainSourceParts(p.scheme, p.host, suffix, short);
    TrailingSpaceIsIgnored(p.scheme, p.host + suffix, p.name);
    LocateReadsTidy(Compose(p.scheme, p.host + suffix, p.name), Compose(p.scheme, p.host + suffix, short));
    hide Locate;
  }

  lemma LocateReadsTidy(a: string, b: string)
    requires Tidy(a) == Tidy(b)
    ensures Locate(a) == Locate(b)
  {
    hide Tidy, SplitUrl, HostAndPort, PortNumber, HostName, DropSlashes;
  }

  lemma JdbcIsLost(p: Parts)
    requires Settled(p) && p.scheme == "jdbc"
    ensures ParseOlIdentity(AsSource(IdentityOf(p))) != Some(IdentityOf(p))
  {
    var authority := p.host + PortSuffix(p.port);
    var short := StripRight(p.name);
    IdentityAsSource(p);
    TrailingSpaceIsIgnored(p.scheme, authority, p.name);
    JdbcIsDropped(authority, short);
    var s := AsSource(IdentityOf(p));
    hide AsSource, Compose, StripRight, PortSuffix;
    assert Tidy(s)[0] == '/';
    SlashIsNoScheme(Tidy(s));
    hide Tidy, SplitUrl, HostAndPort;
    assert IdentityOf(p).namespace[0] == 'j';
    assert ParseOlIdentity(s).Some? ==> ParseOlIdentity(s).value.namespace[0] == 'u';
  }

  lemma JdbcIsDropped(authority: string, rest: string)
    ensures var r := WithoutBreaks(DropControls(WithoutJdbc(Compose("jdbc", authority, rest)))); r != "" && r[0] == '/'
  {
    var s := Compose("jdbc", authority, rest);
    assert s[4] == ':' && s[5] == '/';
    assert "jdbc:" <= s;
    assert "jdbc:postgresql://"[5] == 'p';
    assert WithoutJdbc(s) == s[5..];
    assert s[5..][0] == '/';
  }

  lemma SlashIsNoScheme(url: string)
    requires url != "" && url[0] == '/'
    ensures SplitUrl(url).Some? ==> SplitUrl(url).value.scheme == ""
  {
    assert SplitScheme(url).0 == "";
    hide SplitScheme, SplitAuthority;
  }

  /** For every source with a plain authority, whatever its form: the identity written as a
      source has the same identity if and only if the scheme is not `jdbc` and the name is
      neither empty nor ends in white space. */
  lemma CanonicalIff(source: string)
    requires Locate(source).Some? && PlainAuthority(Locate(source).value.netloc)
    ensures var p := Locate(source).value; var id := ParseOlIdentity(source).value;
      (p.scheme != "jdbc" && p.name != "" && Trimmed(p.name)) <==> ParseOlIdentity(AsSource(id)) == Some(id)
  {
    var p := Locate(source).value;
    PartsAreSettled(source);
    StripRightParts(p.scheme, p.name);
    assert ParseOlIdentity(source) == Some(IdentityOf(p));
    if p.scheme == "jdbc" {
      JdbcIsLost(p);
    } else {
      SecondParse(p);
      var authority := p.host + PortSuffix(p.port);
      assert authority[0] == p.host[0] && HostChar(p.host[0]);
    }
  }

  /** What a plainly written source stands for. */
  function PlainIdentity(scheme: string, host: string, suffix: string, rest: string): Identity {
    Identity(Lower(scheme) + "://" + HostName(host) + PortSuffix(PortValue(suffix)),
             if DropSlashes(rest) == "" then host + suffix else DropSlashes(rest))
  }

  /** Nothing, or a port as it is usually written. */
  predicate IsPort(port: string) {
    port == "" || (port[0] == ':' && IsNumeral(port[1..]) && Decimal(port[1..]) <= 65535)
  }

  lemma PortIsKept(port: string)
    requires IsPort(port)
    ensures PortText(port) && PortNumber(PortDigits(port)).Some?
    ensures PortSuffix(PortNumber(PortDigits(port)).value) == if port == ":0" then "" else port
  {
    if port != "" {
      var digits := port[1..];
      FormatOfDecimal(digits);
      assert port == ":" + digits;
      if digits[0] != '0' {
        DecimalIsPositive(digits);
      } else {
        assert digits == "0";
        DecimalOfDigit('0');
      }
      hide Decimal, Format;
    }
  }

  lemma PortIsWritten(suffix: string)
    ensures IsPort(suffix) ==> PortSuffix(PortValue(suffix)) == if suffix == ":0" then "" else suffix
  {
    if IsPort(suffix) {
      PortIsKept(suffix);
      PortTextNumber(suffix);
      hide PortSuffix, PortValue, PortDigits, PortText, IsPort;
    }
  }

  /** Sources of the form `scheme://host[:port]/path` without a query, a fragment, parameters or
      a jdbc scheme: their identity is spelled out, and it is canonical. */
  lemma PlainSourcesAreCanonical(scheme: string, host: string, suffix: string, rest: string)
    requires IsScheme(scheme) && Lower(scheme) != "jdbc" && HostChars(host) && PortText(suffix) && NameChars(rest)
    requires NothingToCut(Lower(scheme), rest) && Trimmed(rest)
    requires PortValue(suffix) <= 65535 && (host + suffix != "" || DropSlashes(rest) != "")
    ensures var id := PlainIdentity(scheme, host, suffix, rest);
      ParseOlIdentity(scheme + "://" + host + suffix + "/" + rest) == Some(id) &&
          ParseOlIdentity(AsSource(id)) == Some(id)
    ensures IsPort(suffix) ==>
      PlainIdentity(scheme, host, suffix, rest).namespace ==
          Lower(scheme) + "://" + HostName(host) + if suffix == ":0" then "" else suffix
  {
    PortIsWritten(suffix);
    WrittenSource(scheme, host, suffix, rest);
    PlainSourceFacts(scheme, host, suffix, rest);
    var source := Compose(scheme, host + suffix, rest);
    hide Compose, Locate, HostName, HostChars, NameChars, NothingToCut, IsScheme, Lower, DropSlashes, PortSuffix,
        PortText, PortDigits,
      Trimmed, PlainAuthority, AsSource, PortValue, IsPort;
    CanonicalIff(source);
    assert ParseOlIdentity(source) == Some(IdentityOf(Locate(source).value));
    hide ParseOlIdentity, IdentityOf;
  }

  lemma PlainSourceFacts(scheme: string, host: string, suffix: string, rest: string)
    requires IsScheme(scheme) && Lower(scheme) != "jdbc" && HostChars(host) && PortText(suffix) && NameChars(rest)
    requires NothingToCut(Lower(scheme), rest) && Trimmed(rest)
    requires PortValue(suffix) <= 65535 && (host + suffix != "" || DropSlashes(rest) != "")
    ensures var l := Locate(Compose(scheme, host + suffix, rest));
      && l.Some? && PlainAuthority(l.value.netloc) && IdentityOf(l.value) == PlainIdentity(scheme, host, suffix, rest)
      && l.value.scheme != "jdbc" && l.value.name != "" && Trimmed(l.value.name)
  {
    NotJdbc(scheme);
    PlainSourceParts(scheme, host, suffix, rest);
    PlainAuthorityOf(host, suffix);
    DropSlashesEnd(rest);
    hide Compose, Locate, HostName, HostChars, NameChars, NothingToCut, IsScheme, Lower, DropSlashes, PortSuffix,
      Trimmed, PlainAuthority, PortValue, PortText;
  }

  lemma WrittenSource(scheme: string, host: string, suffix: string, rest: string)
    ensures scheme + "://" + host + suffix + "/" + rest == Compose(scheme, host + suffix, rest)
  {
    assert scheme + "://" + host + suffix + "/" + rest == scheme + (":" + ("//" + ((host + suffix) + ("/" + rest))));
  }

  lemma NotJdbc(scheme: string)
    requires Lower(scheme) != "jdbc"
    ensures scheme != "jdbc"
  {
    SmallLettersAreLow("jdbc");
  }

  lemma PlainAuthorityOf(host: string, suffix: string)
    requires HostChars(host) && PortText(suffix)
    ensures PlainAuthority(host + suffix)
    ensures Trimmed(host + suffix)
  {
    var a := host + suffix;
    forall i | 0 <= i < |a| ensures HostChar(a[i]) || a[i] == ':' || IsDigit(a[i]) {
      if i < |host| { assert a[i] == host[i]; }
      else if i > |host| { assert a[i] == suffix[1..][i - |host| - 1]; }
    }
  }

  lemma {:induction false} DropSlashesEnd(s: string)
    ensures Trimmed(s) ==> Trimmed(DropSlashes(s))
  {
    if s != [] && s[0] == '/' { DropSlashesEnd(s[1..]); }
  }

  // ---------- The condition on the source text ----------

  /** What of the text after the authority is left for the name. */
  function PathText(scheme: string, rest: string): string {
    var path := TakeUntil(TakeUntil(rest, "#"), "?");
    DropSlashes(if UsesParams(Lower(scheme)) then CutParams(path) else path)
  }

  function NameText(scheme: string, authority: string, rest: string): string {
    if PathText(scheme, rest) == "" then authority else PathText(scheme, rest)
  }

  lemma CutsAfterSlash(rest: string)
    ensures TakeUntil(TakeUntil("/" + rest, "#"), "?") == "/" + TakeUntil(TakeUntil(rest, "#"), "?")
  {
    assert ("/" + rest)[1..] == rest;
    var inner := TakeUntil(rest, "#");
    assert TakeUntil("/" + rest, "#") == "/" + inner;
    assert ("/" + inner)[1..] == inner;
  }

  lemma ParamsAfterSlash(path: string)
    ensures CutParams("/" + path) == "/" + CutParams(path)
  {
    AfterSlash(path);
    var seg := AfterLast(path, '/');
    hide AfterLast, TakeUntil;
    assert ("/" + path)[..1 + |path| - |seg|] == "/" + path[..|path| - |seg|];
  }

  lemma WrittenSplits(scheme: string, authority: string, rest: string)
    requires IsScheme(scheme) && Free(authority, "/?#") && '[' !in authority && ']' !in authority
    ensures var u := SplitUrl(Compose(scheme, authority, rest));
      u.Some? && u.value.scheme == Lower(scheme) && u.value.netloc == authority &&
          DropSlashes(u.value.path) == PathText(scheme, rest)
  {
    SchemeSplits(scheme, authority, rest);
    AuthoritySplits(authority, rest);
    CutsAfterSlash(rest);
    var path := TakeUntil(TakeUntil(rest, "#"), "?");
    ParamsAfterSlash(path);
    OneSlashDropped(path);
    OneSlashDropped(CutParams(path));
    hide SplitScheme, SplitAuthority, TakeUntil, CutParams, UsesParams, Lower, Compose, DropSlashes;
  }

  lemma WrittenParts(scheme: string, host: string, suffix: string, rest: string)
    requires IsScheme(scheme) && scheme != "jdbc" && HostChars(host) && PortText(suffix) && NoBreaks(rest) &&
        Trimmed(rest)
    requires PortValue(suffix) <= 65535
    ensures Locate(Compose(scheme, host + suffix, rest)) ==
      Some(Parts(Lower(scheme), host + suffix, HostName(host), PortValue(suffix),
          NameText(scheme, host + suffix, rest)))
  {
    ComposedIsTidy(scheme, host, suffix, rest);
    AuthorityParses(host, suffix);
    PortTextNumber(suffix);
    SchemeIsNotEmpty(scheme);
    hide Compose, Tidy, SplitUrl, HostAndPort, HostName, HostChars, TakeUntil, Lower, Free, IsScheme, PortNumber,
        PortText, PortDigits,
      DropSlashes, PathText, PortValue;
    WrittenSplits(scheme, host + suffix, rest);
  }

  lemma NameAndParams(name: string, params: string)
    requires NameChars(name) && NameChars(params) && '/' !in name && ';' !in name && '/' !in params
    ensures var rest := name + (";" + params);
      NameChars(rest) && '/' !in rest && Free(rest, "#") && Free(rest, "?") && Free(name, ";")
  {
  }

  lemma OneSegmentCut(name: string, params: string)
    requires Free(name, ";") && '/' !in name + (";" + params)
    ensures CutParams(name + (";" + params)) == name
  {
    var rest := name + (";" + params);
    AfterLastOf([], rest, '/');
    TakeUntilAt(name, ";" + params, ";");
    hide TakeUntil, AfterLast, DropUntil;
    assert [] + rest == rest && rest[..0] == [] && [] + name == name;
  }

  lemma ParamsAreNoName(scheme: string, name: string, params: string)
    requires UsesParams(Lower(scheme)) && NameChars(name) && NameChars(params)
    requires name != "" && '/' !in name && ';' !in name && '/' !in params
    ensures PathText(scheme, name + (";" + params)) == name
  {
    var rest := name + (";" + params);
    NameAndParams(name, params);
    OneSegmentCut(name, params);
    AllTaken(rest, "#");
    AllTaken(rest, "?");
    assert name[0] != '/' && DropSlashes(name) == name;
    hide TakeUntil, CutParams, UsesParams, NameChars, Free, Lower, DropSlashes;
  }

  /** Where the scheme takes parameters, they are not part of the name. */
  lemma ParametersAreCut(scheme: string, host: string, name: string, params: string)
    requires IsScheme(scheme) && scheme != "jdbc" && UsesParams(Lower(scheme)) && HostChars(host)
    requires NameChars(name) && NameChars(params) && params != "" && Trimmed(params)
    requires name != "" && '/' !in name && ';' !in name && '/' !in params
    ensures Locate(Compose(scheme, host, name + (";" + params))) ==
      Some(Parts(Lower(scheme), host, HostName(host), 0, name))
  {
    var rest := name + (";" + params);
    assert NoBreaks(rest) && Trimmed(rest) && host + "" == host;
    ParamsAreNoName(scheme, name, params);
    assert PortText("") && PortValue("") == 0;
    hide Compose, Locate, HostName, HostChars, Lower, IsScheme, UsesParams, PathText, NoBreaks, Trimmed, NameChars;
    WrittenParts(scheme, host, "", rest);
  }

  /** A concrete source, `http://h/a ;b`, whose identity is not canonical. */
  lemma ParametersCanSpoilIt()
    ensures var source := Compose("http", "h", "a " + (";" + "b"));
      && ParseOlIdentity(source).Some? && ParseOlIdentity(source).value.name == "a "
      && ParseOlIdentity(AsSource(ParseOlIdentity(source).value)) != ParseOlIdentity(source)
  {
    var source := Compose("http", "h", "a " + (";" + "b"));
    HttpTakesParams();
    assert HostChars("h") && PlainAuthority("h");
    hide Compose, Locate, IsScheme, Lower, UsesParams, HostName, AsSource, PlainAuthority, HostChars;
    ParametersAreCut("http", "h", "a ", "b");
    CanonicalIff(source);
    hide IsSpace;
  }

  lemma HttpTakesParams()
    ensures IsScheme("http") && Lower("http") == "http" && UsesParams("http")
  {
    SmallLettersAreLow("http");
    assert ["", "ftp", "hdl", "prospero", "http"][4] == "http";
  }

  /** The condition a caller can check on the text `scheme://host[:port]/rest`, with or without a
      query, a fragment or parameters: the identity is canonical if and only if the scheme is not
      jdbc in capitals and the text that is left for the name is neither empty nor ends in white
      space. */
  lemma WrittenSourceIsCanonicalIff(scheme: string, host: string, suffix: string, rest: string)
    requires IsScheme(scheme) && scheme != "jdbc" && HostChars(host) && PortText(suffix) && NoBreaks(rest) &&
        Trimmed(rest)
    requires PortValue(suffix) <= 65535
    ensures var id := ParseOlIdentity(Compose(scheme, host + suffix, rest));
      var name := NameText(scheme, host + suffix, rest);
      && id.Some? && id.value.name == name
      && (Lower(scheme) != "jdbc" && name != "" && Trimmed(name) <==> ParseOlIdentity(AsSource(id.value)) == id)
  {
    WrittenParts(scheme, host, suffix, rest);
    PlainAuthorityOf(host, suffix);
    hide Compose, Locate, HostName, HostChars, IsScheme, Lower, PortText, Trimmed, PlainAuthority, PortValue,
        NameText, NoBreaks, AsSource;
    CanonicalIff(Compose(scheme, host + suffix, rest));
  }

  // ---------- jdbc sources ----------

  function JdbcPostgres(): string { "jdbc:postgresql://" }

  function Postgres(): string { "postgres://" }

  /** A JDBC source of PostgreSQL has the identity of the PostgreSQL source. */
  lemma JdbcPostgresIsPostgres(rest: string)
    ensures ParseOlIdentity(JdbcPostgres() + rest) == ParseOlIdentity(Postgres() + rest)
  {
    var a, b := JdbcPostgres() + rest, Postgres() + rest;
    JdbcEnds();
    StripRightConcat(JdbcPostgres(), rest);
    StripRightConcat(Postgres(), rest);
    RenamesJdbc(StripRight(rest));
    hide JdbcPostgres, Postgres, WithoutJdbc, StripRight, WithoutBreaks, DropControls;
    assert a[0] == JdbcPostgres()[0] && b[0] == Postgres()[0];
    assert StripLeft(a) == a && StripLeft(b) == b;
    LocateReadsTidy(a, b);
  }

  lemma JdbcEnds()
    ensures JdbcPostgres() != "" && !IsSpace(JdbcPostgres()[0]) && !IsSpace(JdbcPostgres()[|JdbcPostgres()| - 1])
    ensures Postgres() != "" && !IsSpace(Postgres()[0]) && !IsSpace(Postgres()[|Postgres()| - 1])
  {
  }

  lemma RenamesJdbc(rest: string)
    ensures WithoutJdbc(JdbcPostgres() + rest) == Postgres() + rest
    ensures WithoutJdbc(Postgres() + rest) == Postgres() + rest
  {
    var a, b := JdbcPostgres() + rest, Postgres() + rest;
    assert |JdbcPostgres()| == 18 && a[18..] == rest;
    assert b[0] == 'p' && "jdbc:"[0] == 'j' && "jdbc:postgresql://"[0] == 'j';
  }
}
