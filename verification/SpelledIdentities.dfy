/** The identity of a source, read off its text: for each form a source is written in, without the
    functions that take it apart. */
module SpelledIdentities {
  import opened Outcomes
  import opened Decimals
  import opened OlIdentity
  import opened PythonStrings
  import opened CanonicalIdentities

  // ---------- Lower case and hosts ----------

  /** In ASCII, `lower` maps A-Z to a-z and leaves every other character alone. */
  lemma {:induction false} LowerIsCharByChar(s: string)
    requires forall i :: 0 <= i < |s| ==> s[i] < 128 as char
    ensures |Lower(s)| == |s|
    ensures forall i :: 0 <= i < |s| ==> Lower(s)[i] == if 'A' <= s[i] <= 'Z' then (s[i] as int + 32) as char else s[i]
  {
    if s != [] {
      LowerIsCharByChar(s[1..]);
      assert |LowerChar(s[0])| == 1;
      hide LowerChar;
    }
  }

  /** The host name is in lower case up to a zone, which is kept; without a host it is localhost. */
  lemma HostIsLowerUpToZone(host: string, zone: string)
    requires '%' !in host && (zone == "" || zone[0] == '%')
    ensures HostName(host + zone) == if host + zone == "" then "localhost" else Lower(host) + zone
  {
    TakeUntilAt(host, zone, "%");
    hide Lower, TakeUntil, DropUntil;
  }

  // ---------- `scheme://user@host:port/path?query#fragment` ----------

  /** Nothing, or text up to an `@`. */
  predicate IsUserInfo(user: string) {
    user == "" || (user[|user| - 1] == '@' && PlainAuthority(user) && Free(user, "/?#"))
  }

  /** Nothing, or a query or fragment with the mark that starts it. */
  predicate IsTail(tail: string) {
    tail == "" || (tail[0] in "?#" && NoBreaks(tail) && Trimmed(tail))
  }

  predicate IsPath(path: string) {
    path != "" && path[0] != '/' && ';' !in path && NameChars(path) && Trimmed(path)
  }

  predicate IsOwnLower(s: string) {
    s != "" && '%' !in s && Lower(s) == s
  }

  /** What stands before the last `@` is no part of host and port. */
  lemma UserInfoIsSkipped(user: string, host: string, port: string)
    requires IsUserInfo(user) && HostChars(host) && PortText(port)
    ensures HostAndPort(user + (host + port)) == (host, PortDigits(port))
    ensures '[' !in user + (host + port) && ']' !in user + (host + port)
    ensures Free(user + (host + port), "/?#") && NoBreaks(user + (host + port))
  {
    AuthorityChars(host, port);
    AuthorityParses(host, port);
    PlainAuthorityOf(host, port);
    var info := host + port;
    hide HostChars, PortText;
    UserFirst(user, info);
    AfterLastOf(user, info, '@');
    AfterLastOf([], info, '@');
    assert [] + info == info;
    hide AfterLast, TakeUntil, DropUntil;
  }

  lemma UserFirst(user: string, info: string)
    requires IsUserInfo(user) && PlainAuthority(info) && Free(info, "/?#")
    ensures PlainAuthority(user + info) && Free(user + info, "/?#")
    ensures '[' !in user + info && ']' !in user + info && NoBreaks(user + info)
  {
    var all := user + info;
    assert PlainAuthority(user) && Free(user, "/?#");
    forall i | 0 <= i < |all|
      ensures !IsSpace(all[i]) && all[i] !in "[];/?#"
    {
      if i < |user| { assert all[i] == user[i]; } else { assert all[i] == info[i - |user|]; }
    }
  }

  lemma TailIsCut(scheme: string, path: string, tail: string)
    requires IsPath(path) && IsTail(tail)
    ensures PathText(scheme, path + tail) == path && NoBreaks(path + tail) && Trimmed(path + tail)
  {
    PathAndTail(path, tail);
    PathIsName(path);
    hide IsPath, IsTail, NoBreaks, Trimmed, TakeUntil, UsesParams, Lower, CutParams, DropSlashes;
  }

  lemma PathAndTail(path: string, tail: string)
    requires IsPath(path) && IsTail(tail)
    ensures TakeUntil(TakeUntil(path + tail, "#"), "?") == path
    ensures NoBreaks(path + tail) && Trimmed(path + tail)
  {
    hide TakeUntil, IsSpace, IsLineBreakOrTab;
    QueryIsCut(path, tail);
    assert NoBreaks(path) && NoBreaks(tail);
    Joined(path, tail);
    hide NoBreaks, NameChars;
    if tail == "" {
      assert path + tail == path;
    } else {
      assert (path + tail)[|path + tail| - 1] == tail[|tail| - 1];
    }
  }

  lemma PathIsName(path: string)
    requires IsPath(path)
    ensures CutParams(path) == path && DropSlashes(path) == path
  {
    AfterLastParts(path, '/');
    assert ';' !in AfterLast(path, '/');
    NoParamsToCut(path);
    hide AfterLast, CutParams;
  }

  lemma QueryIsCut(path: string, tail: string)
    requires NameChars(path) && (tail == "" || tail[0] in "?#")
    ensures TakeUntil(TakeUntil(path + tail, "#"), "?") == path
  {
    var query, fragment := TakeUntil(tail, "#"), DropUntil(tail, "#");
    TakeUntilParts(tail, "#");
    assert query == "" || query[0] == tail[0] == '?';
    assert Free(path, "#") && Free(path, "?");
    hide TakeUntil, DropUntil, NameChars;
    BothFree(path, query, "#");
    assert path + tail == path + query + fragment;
    TakeUntilAt(path + query, fragment, "#");
    hide Free;
    TakeUntilAt(path, query, "?");
  }

  lemma BothFree(a: string, b: string, stops: string)
    requires Free(a, stops) && Free(b, stops)
    ensures Free(a + b, stops)
  {
  }

  lemma SpelledIsTidy(scheme: string, authority: string, rest: string)
    requires IsScheme(scheme) && scheme != "jdbc" && NoBreaks(authority) && NoBreaks(rest) && Trimmed(rest)
    ensures Tidy(Compose(scheme, authority, rest)) == Compose(scheme, authority, rest)
  {
    var s := Compose(scheme, authority, rest);
    ComposeHead(scheme, authority, rest);
    assert NoBreaks(scheme);
    Joined("/", rest);
    Joined(authority, "/" + rest);
    Joined("//", authority + ("/" + rest));
    Joined(":", "//" + (authority + ("/" + rest)));
    Joined(scheme, ":" + ("//" + (authority + ("/" + rest))));
    assert s[0] == scheme[0] && s[|s| - 1] == (if rest == "" then '/' else rest[|rest| - 1]);
    hide Compose, Tidy;
    TidyNoop(s);
  }

  lemma SpelledLocates(scheme: string, user: string, host: string, port: string, path: string, tail: string)
    requires IsScheme(scheme) && IsOwnLower(scheme) && scheme != "jdbc" && IsUserInfo(user)
    requires HostChars(host) && IsOwnLower(host) && IsPort(port) && IsPath(path) && IsTail(tail)
    ensures var l := Locate(Compose(scheme, user + (host + port), path + tail));
      && l.Some? && l.value.scheme == scheme && l.value.host == host && l.value.name == path
      && PortSuffix(l.value.port) == if port == ":0" then "" else port
  {
    var authority := user + (host + port);
    var s := Compose(scheme, authority, path + tail);
    PortIsKept(port);
    UserInfoIsSkipped(user, host, port);
    TailIsCut(scheme, path, tail);
    SpelledIsTidy(scheme, authority, path + tail);
    LowHostIsItself(host);
    assert scheme != "" && path != "";
    hide *;
    WrittenSplits(scheme, authority, path + tail);
    LocatedParts(s, host, port);
  }

  lemma LowHostIsItself(host: string)
    requires IsOwnLower(host)
    ensures HostName(host) == host && host != ""
  {
    HostIsLowerUpToZone(host, "");
    assert host + "" == host;
    hide HostName, Lower;
  }

  lemma LocatedParts(s: string, host: string, port: string)
    requires Tidy(s) == s && SplitUrl(s).Some? && HostAndPort(SplitUrl(s).value.netloc) == (host, PortDigits(port))
    requires PortNumber(PortDigits(port)).Some?
    ensures var (u, l) := (SplitUrl(s).value, Locate(s));
      && l.Some? && l.value.scheme == (if u.scheme == "" then "unknown" else u.scheme)
      && l.value.host == HostName(host) && l.value.port == PortNumber(PortDigits(port)).value
      && l.value.name == if DropSlashes(u.path) == "" then u.netloc else DropSlashes(u.path)
  {
    hide Tidy, SplitUrl, HostAndPort, PortNumber, PortDigits, HostName, DropSlashes;
  }

  /** The identity of `scheme://user@host:port/path?query#fragment`, in lower case but for the path,
      is `scheme://host:port` and `path`. Whatever precedes the host and follows the path is no part of
      it; nor is a port of 0. */
  lemma SourceIsSpelledOut(scheme: string, user: string, host: string, port: string, path: string, tail: string)
    requires IsScheme(scheme) && IsOwnLower(scheme) && scheme != "jdbc" && IsUserInfo(user)
    requires HostChars(host) && IsOwnLower(host) && IsPort(port) && IsPath(path) && IsTail(tail)
    ensures ParseOlIdentity(scheme + "://" + user + host + port + "/" + path + tail) ==
      Some(Identity(scheme + "://" + host + (if port == ":0" then "" else port), path))
  {
    SpelledLocates(scheme, user, host, port, path, tail);
    AsWritten(scheme, user, host, port, path, tail);
    hide *;
    IdentityOfLocated(scheme + "://" + user + host + port + "/" + path + tail);
  }

  lemma AsWritten(scheme: string, user: string, host: string, port: string, path: string, tail: string)
    ensures scheme + "://" + user + host + port + "/" + path + tail ==
      Compose(scheme, user + (host + port), path + tail)
  {
    var authority := user + (host + port);
    assert authority == user + host + port;
    assert scheme + "://" + user + host + port + "/" + path + tail
        == (scheme + "://" + authority + "/") + (path + tail);
    WrittenSource(scheme, authority, "", path + tail);
    hide Compose;
    assert authority + "" == authority;
    assert scheme + "://" + authority + "" + "/" + (path + tail) == (scheme + "://" + authority + "/") + (path + tail);
  }

  lemma IdentityOfLocated(source: string)
    requires Locate(source).Some?
    ensures var p := Locate(source).value;
      ParseOlIdentity(source) == Some(Identity(p.scheme + "://" + p.host + PortSuffix(p.port), p.name))
  {
    hide Locate, PortSuffix;
  }

  // ---------- Plain paths and jdbc ----------

  /** A plain path is a file of an unknown scheme on the local host. */
  lemma PathIsLocal(path: string)
    requires IsPath(path)
    ensures ParseOlIdentity("/" + path) == Some(Identity("unknown" + "://" + "localhost", path))
  {
    PathLocates(path);
    hide Locate;
    assert PortSuffix(0) == "";
    assert "unknown" + "://" + "localhost" + "" == "unknown" + "://" + "localhost";
  }

  lemma PathLocates(path: string)
    requires IsPath(path)
    ensures Locate("/" + path) == Some(Parts("unknown", "", "localhost", 0, path))
  {
    var s := "/" + path;
    PathIsTidy(path);
    PathSplits(path);
    assert HostAndPort("") == ("", "");
    OneSlashDropped(path);
    assert DropSlashes(path) == path;
    hide Tidy, SplitUrl, HostAndPort, DropSlashes, IsPath;
  }

  lemma PathIsTidy(path: string)
    requires IsPath(path)
    ensures Tidy("/" + path) == "/" + path
  {
    var s := "/" + path;
    assert s[0] == '/' && s[|s| - 1] == path[|path| - 1] && !IsSpace(s[|s| - 1]);
    assert StripLeft(s) == s && StripRight(s) == s;
    assert "jdbc:"[0] == 'j' && "jdbc:postgresql://"[0] == 'j';
    assert WithoutJdbc(s) == s && DropControls(s) == s;
    hide IsSpace, StripLeft, StripRight, WithoutJdbc, DropControls;
    assert forall i :: 0 <= i < |s| ==> !IsLineBreakOrTab(s[i]);
    NoBreaksToRemove(s);
  }

  lemma PathSplits(path: string)
    requires IsPath(path)
    ensures SplitUrl("/" + path) == Some(Url("", "", "/" + path))
  {
    var s := "/" + path;
    NoSchemeNorAuthority(path);
    assert NameChars(s);
    PathKept(s);
    PathIsName(path);
    ParamsAfterSlash(path);
    hide SplitScheme, SplitAuthority, TakeUntil, CutParams, UsesParams, IsPath, NameChars;
  }

  lemma NoSchemeNorAuthority(path: string)
    requires IsPath(path)
    ensures SplitScheme("/" + path) == ("", "/" + path) && SplitAuthority("/" + path) == ("", "/" + path)
  {
    assert ("/" + path)[1] == path[0];
    hide IsPath, Lower;
  }

  function Jdbc(): string { "jdbc:" }

  function PostgresqlRest(): string { "postgresql://" }

  /** Of any other jdbc source, the prefix is dropped. */
  lemma OtherJdbcIsDropped(rest: string)
    requires rest != "" && !IsSpace(rest[0])
    requires !(Jdbc() <= rest) && !(PostgresqlRest() <= rest)
    ensures ParseOlIdentity(Jdbc() + rest) == ParseOlIdentity(rest)
  {
    var s, short := Jdbc() + rest, StripRight(rest);
    StripRightConcat(Jdbc(), rest);
    assert s[0] == 'j' && StripLeft(s) == s && StripLeft(rest) == rest;
    StripRightSplits(rest);
    JdbcIsNotFirst(rest, short);
    assert Tidy(s) == Tidy(rest) by {
      hide StripRight, StripLeft, WithoutJdbc, WithoutBreaks, DropControls, IsSpace, Jdbc;
    }
    hide Jdbc, Tidy, StripRight, StripLeft;
    LocateReadsTidy(s, rest);
    hide Locate;
  }

  lemma PostgresqlAfterJdbc(short: string)
    requires "jdbc:postgresql://" <= Jdbc() + short
    ensures PostgresqlRest() <= short
  {
    var s := Jdbc() + short;
    assert "jdbc:postgresql://"[5..] == s[5..18] == short[..13];
    assert "jdbc:postgresql://"[5..] == PostgresqlRest();
  }

  lemma JdbcIsNotFirst(rest: string, short: string)
    requires !(Jdbc() <= rest) && !(PostgresqlRest() <= rest) && short <= rest
    ensures WithoutJdbc(Jdbc() + short) == short && WithoutJdbc(short) == short
  {
    var s := Jdbc() + short;
    assert Jdbc() <= s && s[5..] == short;
    if "jdbc:postgresql://" <= s { PostgresqlAfterJdbc(short); }
    JdbcPrefix(short);
    assert !(Jdbc() <= short);
    hide PostgresqlRest;
  }
}
