/** Slash-separated names. */
module SlashPaths {
  /** The pieces of `s` between slashes. */
  function Split(s: string): (r: seq<string>)
    ensures r != []
  {
    if s == [] then [[]]
    else
      var rest := Split(s[1..]);
      if s[0] == '/' then [[]] + rest else [[s[0]] + rest[0]] + rest[1..]
  }

  lemma {:induction false} SplitPiece(piece: string, rest: string)
    requires '/' !in piece
    ensures Split(piece) == [piece]
    ensures Split(piece + "/" + rest) == [piece] + Split(rest)
  {
    var s := piece + "/" + rest;
    if piece == [] {
      assert s[1..] == rest;
    } else {
      SplitPiece(piece[1..], rest);
      assert s[1..] == piece[1..] + "/" + rest;
      assert [piece[0]] + piece[1..] == piece;
    }
  }
}

/** Sanitised, hierarchical job names. */
module JobNaming {
  import opened Outcomes
  import opened PythonStrings
  import opened SlashPaths

  // ---------- sanitize_name ----------

  function DashSeparators(s: string): string {
    if s == [] then [] else [if s[0] == ' ' || s[0] == '_' then '-' else s[0]] + DashSeparators(s[1..])
  }

  predicate Safe(c: char) {
    'a' <= c <= 'z' || '0' <= c <= '9' || c == '-' || c == '.'
  }

  /** `re.sub(r"[^a-z0-9\-.]", "", s)`. */
  function KeepSafe(s: string): string {
    if s == [] then [] else (if Safe(s[0]) then [s[0]] else []) + KeepSafe(s[1..])
  }

  /** `re.sub(r"-+", "-", s)`. */
  function CollapseDashes(s: string): string {
    if s == [] then []
    else if |s| > 1 && s[0] == '-' && s[1] == '-' then CollapseDashes(s[1..])
    else [s[0]] + CollapseDashes(s[1..])
  }

  /** `s.strip("-")`. */
  function StripDashes(s: string): string {
    if s != [] && s[0] == '-' then StripDashes(s[1..])
    else if s != [] && s[|s| - 1] == '-' then StripDashes(s[..|s| - 1])
    else s
  }

  function Sanitize(name: string): string {
    var r := StripDashes(CollapseDashes(KeepSafe(DashSeparators(Lower(name)))));
    if r == [] then "unnamed" else r
  }

  // ---------- What sanitising yields ----------

  predicate AllSafe(s: string) {
    forall i :: 0 <= i < |s| ==> Safe(s[i])
  }

  predicate NoDoubleDash(s: string) {
    forall i :: 0 <= i < |s| - 1 ==> !(s[i] == '-' && s[i + 1] == '-')
  }

  /** Non-empty, over [a-z0-9.-], no doubled, leading or trailing hyphen. */
  predicate Tidy(s: string) {
    s != [] && AllSafe(s) && NoDoubleDash(s) && s[0] != '-' && s[|s| - 1] != '-'
  }

  lemma {:induction false} KeepSafeIsSafe(s: string)
    ensures AllSafe(KeepSafe(s))
  {
    if s != [] { KeepSafeIsSafe(s[1..]); }
  }

  lemma {:induction false} CollapseIsTidy(s: string)
    requires AllSafe(s)
    ensures var r := CollapseDashes(s);
      AllSafe(r) && NoDoubleDash(r) && (r == [] <==> s == []) && (s != [] ==> r[0] == s[0])
  {
    if s != [] {
      CollapseIsTidy(s[1..]);
      var rest := CollapseDashes(s[1..]);
      if !(|s| > 1 && s[0] == '-' && s[1] == '-') {
        DashCons(s[0], rest);
      }
    }
  }

  lemma DashCons(c: char, rest: string)
    requires AllSafe(rest) && NoDoubleDash(rest) && Safe(c) && (rest != [] && c == '-' ==> rest[0] != '-')
    ensures AllSafe([c] + rest) && NoDoubleDash([c] + rest)
  {
    var s := [c] + rest;
    forall i | 0 <= i < |s| - 1
      ensures !(s[i] == '-' && s[i + 1] == '-')
    {
      assert s[i + 1] == rest[i] && (i > 0 ==> s[i] == rest[i - 1]);
    }
  }

  lemma {:induction false} StripIsTidy(s: string)
    requires AllSafe(s) && NoDoubleDash(s)
    ensures StripDashes(s) == [] || Tidy(StripDashes(s))
    decreases |s|
  {
    if s != [] && s[0] == '-' {
      StripIsTidy(s[1..]);
    } else if s != [] && s[|s| - 1] == '-' {
      StripIsTidy(s[..|s| - 1]);
    }
  }

  lemma UnnamedIsTidy()
    ensures Tidy("unnamed")
  {
  }

  lemma {:induction false} LowerOfSafe(s: string)
    requires AllSafe(s)
    ensures Lower(s) == s
  {
    if s != [] {
      LowerOfSafe(s[1..]);
      assert Safe(s[0]);
    }
  }

  lemma {:induction false} DashesOfSafe(s: string)
    requires AllSafe(s)
    ensures DashSeparators(s) == s
  {
    if s != [] {
      DashesOfSafe(s[1..]);
      assert Safe(s[0]);
    }
  }

  lemma {:induction false} KeepSafeOfSafe(s: string)
    requires AllSafe(s)
    ensures KeepSafe(s) == s
  {
    if s != [] {
      KeepSafeOfSafe(s[1..]);
      assert Safe(s[0]);
    }
  }

  lemma {:induction false} CollapseOfTidy(s: string)
    requires NoDoubleDash(s)
    ensures CollapseDashes(s) == s
  {
    if s != [] {
      assert |s| > 1 ==> !(s[0] == '-' && s[0 + 1] == '-');
      forall i | 0 <= i < |s[1..]| - 1
        ensures !(s[1..][i] == '-' && s[1..][i + 1] == '-')
      {
        assert !(s[i + 1] == '-' && s[i + 1 + 1] == '-');
      }
      CollapseOfTidy(s[1..]);
    }
  }

  /** The results of sanitising are exactly the tidy names, and those it leaves alone; so it is idempotent. */
  lemma SanitizeFixesExactlyTidy(name: string)
    ensures Tidy(Sanitize(name))
    ensures Tidy(name) <==> Sanitize(name) == name
    ensures Sanitize(Sanitize(name)) == Sanitize(name)
  {
    SanitizeIsTidy(name);
    if Tidy(name) { SanitizeOfTidy(name); }
    SanitizeOfTidy(Sanitize(name));
    hide Sanitize, Tidy;
  }

  lemma SanitizeIsTidy(name: string)
    ensures Tidy(Sanitize(name))
  {
    var kept := KeepSafe(DashSeparators(Lower(name)));
    KeepSafeIsSafe(DashSeparators(Lower(name)));
    CollapseIsTidy(kept);
    StripIsTidy(CollapseDashes(kept));
    UnnamedIsTidy();
    hide Tidy, Lower, DashSeparators, KeepSafe, CollapseDashes, StripDashes;
  }

  lemma SanitizeOfTidy(s: string)
    requires Tidy(s)
    ensures Sanitize(s) == s
  {
    LowerOfSafe(s);
    DashesOfSafe(s);
    KeepSafeOfSafe(s);
    CollapseOfTidy(s);
    hide Lower, DashSeparators, KeepSafe, CollapseDashes;
  }

  // ---------- What sanitising keeps ----------

  /** The pieces of `s` between hyphens. */
  function Pieces(s: string): (r: seq<string>)
    ensures r != []
  {
    if s == [] then [[]]
    else
      var rest := Pieces(s[1..]);
      if s[0] == '-' then [[]] + rest else [[s[0]] + rest[0]] + rest[1..]
  }

  function NonEmpty(words: seq<string>): seq<string> {
    if words == [] then [] else (if words[0] == [] then [] else [words[0]]) + NonEmpty(words[1..])
  }

  /** `"-".join(words)`. */
  function Join(words: seq<string>): string {
    if words == [] then []
    else if |words| == 1 then words[0]
    else words[0] + "-" + Join(words[1..])
  }

  /** The characters of a name that count: lower-cased, separators as hyphens, the rest left out. */
  function Kept(name: string): string {
    KeepSafe(DashSeparators(Lower(name)))
  }

  /** What one character contributes. */
  function KeptChar(c: char): string {
    if 'a' <= c <= 'z' || '0' <= c <= '9' || c == '.' then [c]
    else if 'A' <= c <= 'Z' then [c - 'A' + 'a']
    else if c == '-' || c == ' ' || c == '_' then "-"
    else if c as int == 0x212A then "k"
    else if c as int == 0x130 then "i"
    else ""
  }

  lemma KeptIsCharByChar(name: string)
    ensures Kept(name) == if name == [] then [] else KeptChar(name[0]) + Kept(name[1..])
  {
    if name != [] {
      var low, rest := LowerChar(name[0]), Lower(name[1..]);
      DashesAppend(low, rest);
      KeepSafeAppend(DashSeparators(low), DashSeparators(rest));
      KeptOfChar(name[0]);
      hide KeepSafe, DashSeparators, LowerChar, KeptChar;
    }
  }

  lemma {:induction false} DashesAppend(a: string, b: string)
    ensures DashSeparators(a + b) == DashSeparators(a) + DashSeparators(b)
  {
    if a == [] {
      assert a + b == b;
    } else {
      assert (a + b)[1..] == a[1..] + b;
      DashesAppend(a[1..], b);
    }
  }

  lemma {:induction false} KeepSafeAppend(a: string, b: string)
    ensures KeepSafe(a + b) == KeepSafe(a) + KeepSafe(b)
  {
    if a == [] {
      assert a + b == b;
    } else {
      assert (a + b)[1..] == a[1..] + b;
      KeepSafeAppend(a[1..], b);
    }
  }

  lemma OfOneChar(c: char)
    ensures DashSeparators([c]) == [if c == ' ' || c == '_' then '-' else c]
    ensures KeepSafe([c]) == if Safe(c) then [c] else []
  {
    assert [c][1..] == [];
    assert DashSeparators([]) == [] && KeepSafe([]) == [];
  }

  lemma KeptOfChar(c: char)
    ensures KeepSafe(DashSeparators(LowerChar(c))) == KeptChar(c)
  {
    if c as int == 0x130 {
      var dot := 0x307 as char;
      DashesAppend("i", [dot]);
      KeepSafeAppend("i", [dot]);
      OfOneChar('i');
      OfOneChar(dot);
      assert LowerChar(c) == "i" + [dot];
    } else {
      OfOneChar(LowerChar(c)[0]);
      OfOneChar(DashSeparators(LowerChar(c))[0]);
    }
  }

  /** The words of a name: its kept characters between separators. */
  function Words(name: string): seq<string> {
    NonEmpty(Pieces(Kept(name)))
  }

  /** Sanitising joins the words of a name, all of them, in order, by single hyphens. */
  lemma SanitizeJoinsWords(name: string)
    ensures Sanitize(name) == if Words(name) == [] then "unnamed" else Join(Words(name))
  {
    var kept := Kept(name);
    var r := StripDashes(CollapseDashes(kept));
    KeepSafeIsSafe(DashSeparators(Lower(name)));
    CollapseIsTidy(kept);
    StripIsTidy(CollapseDashes(kept));
    CollapseKeepsWords(kept);
    StripKeepsWords(CollapseDashes(kept));
    if r != [] { TidyIsItsWords(r); }
    hide Lower, DashSeparators, KeepSafe, CollapseDashes, StripDashes, Pieces, Join, NoDoubleDash, AllSafe;
    NonEmptyParts(Pieces(CollapseDashes(kept)));
    NonEmptyParts(Pieces(kept));
    EmptyHasNoWords();
  }

  lemma EmptyHasNoWords()
    ensures NonEmpty(Pieces("")) == []
  {
    assert Pieces("") == [[]];
  }

  lemma NonEmptyParts(words: seq<string>)
    requires words != []
    ensures NonEmpty(words) == (if words[0] == [] then [] else [words[0]]) + NonEmpty(words[1..])
  {
  }

  lemma {:induction false} CollapseKeepsWords(s: string)
    ensures Pieces(CollapseDashes(s))[0] == Pieces(s)[0]
    ensures NonEmpty(Pieces(CollapseDashes(s))[1..]) == NonEmpty(Pieces(s)[1..])
  {
    if s != [] {
      CollapseKeepsWords(s[1..]);
      var rest := CollapseDashes(s[1..]);
      NonEmptyParts(Pieces(rest));
      NonEmptyParts(Pieces(s[1..]));
      if !(|s| > 1 && s[0] == '-' && s[1] == '-') {
        assert ([s[0]] + rest)[1..] == rest;
      }
    }
  }

  lemma {:induction false} TrailingDash(s: string)
    ensures Pieces(s + "-") == Pieces(s) + [[]]
  {
    if s == [] {
      assert s + "-" == "-" && "-"[1..] == [];
    } else {
      TrailingDash(s[1..]);
      assert (s + "-")[1..] == s[1..] + "-";
    }
  }

  lemma {:induction false} NonEmptySnoc(words: seq<string>)
    ensures NonEmpty(words + [[]]) == NonEmpty(words)
  {
    if words == [] {
      assert words + [[]] == [[]];
    } else {
      NonEmptySnoc(words[1..]);
      assert (words + [[]])[1..] == words[1..] + [[]];
    }
  }

  lemma {:induction false} StripKeepsWords(s: string)
    ensures NonEmpty(Pieces(StripDashes(s))) == NonEmpty(Pieces(s))
    decreases |s|
  {
    if s != [] && s[0] == '-' {
      StripKeepsWords(s[1..]);
      NonEmptyParts(Pieces(s));
    } else if s != [] && s[|s| - 1] == '-' {
      var init := s[..|s| - 1];
      assert s == init + "-";
      StripKeepsWords(init);
      TrailingDash(init);
      NonEmptySnoc(Pieces(init));
    }
  }

  lemma {:induction false} JoinPieces(s: string)
    ensures Join(Pieces(s)) == s
  {
    if s != [] { JoinPieces(s[1..]); }
  }

  lemma {:induction false} AllAreWords(words: seq<string>)
    requires forall i :: 0 <= i < |words| ==> words[i] != []
    ensures NonEmpty(words) == words
  {
    if words != [] { AllAreWords(words[1..]); }
  }

  lemma {:induction false} NoEmptyPieces(s: string)
    requires NoDoubleDash(s) && s != [] && s[|s| - 1] != '-'
    ensures forall i :: 1 <= i < |Pieces(s)| ==> Pieces(s)[i] != []
    ensures Pieces(s)[0] == [] <==> s[0] == '-'
  {
    if |s| == 1 {
      assert s[1..] == [];
    } else {
      assert !(s[0] == '-' && s[0 + 1] == '-');
      var rest := s[1..];
      forall i | 0 <= i < |rest| - 1
        ensures !(rest[i] == '-' && rest[i + 1] == '-')
      {
        assert !(s[i + 1] == '-' && s[i + 1 + 1] == '-');
      }
      NoEmptyPieces(rest);
    }
  }

  lemma TidyIsItsWords(s: string)
    requires Tidy(s)
    ensures NonEmpty(Pieces(s)) != [] && Join(NonEmpty(Pieces(s))) == s
  {
    NoEmptyPieces(s);
    JoinPieces(s);
    hide Pieces, Join;
    AllAreWords(Pieces(s));
  }

  // ---------- build_job_name ----------

  /** An absent or empty context is no context. */
  function Parts(tool: string, name: string, context: Option<string>): seq<string> {
    if context.Some? && context.value != [] then [Sanitize(tool), Sanitize(context.value), Sanitize(name)]
    else [Sanitize(tool), Sanitize(name)]
  }

  function BuildJobName(tool: string, name: string, context: Option<string>): string {
    if context.Some? && context.value != [] then Sanitize(tool) + "/" + Sanitize(context.value) + "/" + Sanitize(name)
    else Sanitize(tool) + "/" + Sanitize(name)
  }

  lemma TidyHasNoSlash(s: string)
    requires Tidy(s)
    ensures '/' !in s
  {
    forall i | 0 <= i < |s|
      ensures s[i] != '/'
    {
      assert Safe(s[i]);
    }
  }

  /** The name splits back at its slashes into the sanitised parts. */
  lemma JobNameSplits(tool: string, name: string, context: Option<string>)
    ensures Split(BuildJobName(tool, name, context)) == Parts(tool, name, context)
  {
    SanitizeIsTidy(tool);
    SanitizeIsTidy(name);
    TidyHasNoSlash(Sanitize(tool));
    TidyHasNoSlash(Sanitize(name));
    hide Sanitize, Tidy, Split;
    if context.Some? && context.value != [] {
      SanitizeIsTidy(context.value);
      TidyHasNoSlash(Sanitize(context.value));
      var t, c, n := Sanitize(tool), Sanitize(context.value), Sanitize(name);
      assert t + "/" + c + "/" + n == t + "/" + (c + "/" + n);
      SplitPiece(t, c + "/" + n);
      SplitPiece(c, n);
      SplitPiece(n, "");
    } else {
      SplitPiece(Sanitize(tool), Sanitize(name));
      SplitPiece(Sanitize(name), "");
    }
  }

  /** Two job names are equal exactly when the sanitised tool, name and context agree. */
  lemma JobNamesEqualIff(tool: string, name: string, context: Option<string>, tool': string, name': string,
      context': Option<string>)
    ensures BuildJobName(tool, name, context) == BuildJobName(tool', name', context')
       <==> Parts(tool, name, context) == Parts(tool', name', context')
  {
    JobNameSplits(tool, name, context);
    JobNameSplits(tool', name', context');
    hide Sanitize, Split;
  }
}
