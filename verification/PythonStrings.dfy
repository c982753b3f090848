/** Python's string methods that more than one component uses. */
module PythonStrings {
  // ---------- strip ----------

  /** The characters `str.strip` removes. */
  predicate IsSpace(c: char) {
    var code := c as int;
    || 9 <= code <= 13 || 28 <= code <= 32 || code == 0x85 || code == 0xa0 || code == 0x1680 || 0x2000 <= code <= 0x200a
    || code == 0x2028 || code == 0x2029 || code == 0x202f || code == 0x205f || code == 0x3000
  }

  function StripLeft(s: string): string {
    if s != [] && IsSpace(s[0]) then StripLeft(s[1..]) else s
  }

  function StripRight(s: string): string {
    if s != [] && IsSpace(s[|s| - 1]) then StripRight(s[..|s| - 1]) else s
  }

  /** `s.strip()`. */
  function Strip(s: string): string {
    StripRight(StripLeft(s))
  }

  /** Every character is white space. */
  predicate AllSpace(s: string) {
    forall i :: 0 <= i < |s| ==> IsSpace(s[i])
  }

  lemma {:induction false} StripLeftSplits(s: string)
    ensures var r := StripLeft(s);
      && |r| <= |s| && r == s[|s| - |r|..] && AllSpace(s[..|s| - |r|]) && (r != [] ==> !IsSpace(r[0]))
  {
    if s != [] && IsSpace(s[0]) {
      StripLeftSplits(s[1..]);
      var r := StripLeft(s[1..]);
      assert s[1..][..|s[1..]| - |r|] == s[1..|s| - |r|];
      forall i | 0 <= i < |s| - |r|
        ensures IsSpace(s[i])
      {
        if i > 0 { assert s[i] == s[1..|s| - |r|][i - 1]; }
      }
    }
  }

  lemma {:induction false} StripRightSplits(s: string)
    ensures var r := StripRight(s);
      && |r| <= |s| && r == s[..|r|] && AllSpace(s[|r|..]) && (r != [] ==> !IsSpace(r[|r| - 1]))
  {
    if s != [] && IsSpace(s[|s| - 1]) {
      var init := s[..|s| - 1];
      StripRightSplits(init);
      var r := StripRight(init);
      forall i | 0 <= i < |s| - |r|
        ensures IsSpace(s[|r|..][i])
      {
        if |r| + i < |init| { assert s[|r|..][i] == init[|r|..][i]; }
      }
    }
  }

  /** `t` is `s` from `a` to `b`; what is left out is white space, and `t` has none at its ends. */
  predicate IsTrimmed(s: string, a: nat, b: nat, t: string) {
    && a <= b <= |s| && t == s[a..b] && AllSpace(s[..a]) && AllSpace(s[b..])
    && (t != [] ==> !IsSpace(t[0]) && !IsSpace(t[|t| - 1]))
  }

  lemma StripIsTrimmed(s: string)
    ensures exists a: nat, b: nat :: IsTrimmed(s, a, b, Strip(s))
  {
    var left := StripLeft(s);
    var t := StripRight(left);
    StripLeftSplits(s);
    StripRightSplits(left);
    var a := |s| - |left|;
    var b := a + |t|;
    assert Strip(s) == t;
    hide StripLeft, StripRight, Strip, IsSpace;
    assert t == s[a..b];
    assert s[b..] == left[|t|..];
    if t != [] { assert t[0] == left[0]; }
    assert IsTrimmed(s, a, b, Strip(s));
  }

  // ---------- lower ----------

  /** `str.lower` of one character, as far as ASCII goes: besides A-Z, only the Kelvin sign and the
      dotted capital I have an ASCII letter in their lower case. Any other character stands for
      itself. */
  function LowerChar(c: char): (r: string)
    ensures r != []
  {
    var code := c as int;
    if 'A' <= c <= 'Z' then [(code + 32) as char]
    else if code == 0x212A then "k"
    else if code == 0x130 then ['i', 0x307 as char]
    else [c]
  }

  function Lower(s: string): (r: string)
    ensures |r| >= |s|
  {
    if s == [] then [] else LowerChar(s[0]) + Lower(s[1..])
  }

  /** The characters that `lower` leaves alone. */
  predicate IsLow(c: char) {
    LowerChar(c) == [c]
  }

  predicate AllLow(s: string) {
    forall i :: 0 <= i < |s| ==> IsLow(s[i])
  }

  lemma {:induction false} LowerOfLow(s: string)
    requires AllLow(s)
    ensures Lower(s) == s
  {
    if s != [] {
      assert IsLow(s[0]) && AllLow(s[1..]);
      LowerOfLow(s[1..]);
    }
  }

  lemma SmallLettersAreLow(s: string)
    requires forall i :: 0 <= i < |s| ==> 'a' <= s[i] <= 'z' || '0' <= s[i] <= '9'
    ensures Lower(s) == s
  {
    assert AllLow(s);
    hide IsLow, LowerChar;
    LowerOfLow(s);
  }

  lemma LowerCharIsLow(c: char)
    ensures AllLow(LowerChar(c))
  {
  }

  lemma {:induction false} LowerIsLow(s: string)
    ensures AllLow(Lower(s))
  {
    if s != [] {
      LowerCharIsLow(s[0]);
      LowerIsLow(s[1..]);
      hide LowerChar, IsLow;
    }
  }

  lemma LowerTwice(s: string)
    ensures Lower(Lower(s)) == Lower(s)
  {
    LowerIsLow(s);
    LowerOfLow(Lower(s));
  }
}
