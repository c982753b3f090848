/** Cleaning and normalising the raw table: first occurrences, median imputation,
    min-max scaling. Numbers are exact reals. */
module EtlTransform {
  import opened Outcomes

  /** A cell of a numeric column: a number, a text that is none, or nothing. */
  datatype Cell = Number(value: real) | Text(text: string) | Missing

  type Column = seq<Cell>

  const NUMERIC_COLS: seq<string> := ["tenure_months", "monthly_charges", "total_charges", "num_support_tickets"]

  const TIME_COL := "event_timestamp"

  const LABEL_COL := "churn"

  lemma OtherColumns()
    ensures TIME_COL !in NUMERIC_COLS && LABEL_COL !in NUMERIC_COLS && TIME_COL != LABEL_COL
  {
    assert |LABEL_COL| == 5 && |TIME_COL| == 15;
    assert TIME_COL[0] == 'e' && "monthly_charges"[0] == 'm';
  }

  // ---------- Rows kept by drop_duplicates ----------

  /** The positions of the first occurrences, in order. */
  function FirstPositions(ids: seq<string>): (r: seq<nat>)
    ensures forall k :: 0 <= k < |r| ==> r[k] < |ids|
  {
    if ids == [] then []
    else
      var n := |ids| - 1;
      FirstPositions(ids[..n]) + (if ids[n] in ids[..n] then [] else [n])
  }

  function Select<T>(s: seq<T>, positions: seq<nat>): (r: seq<T>)
    requires forall k :: 0 <= k < |positions| ==> positions[k] < |s|
    ensures |r| == |positions| && forall k :: 0 <= k < |r| ==> r[k] == s[positions[k]]
  {
    seq(|positions|, k requires 0 <= k < |positions| => s[positions[k]])
  }

  ghost predicate Increasing(p: seq<nat>) {
    forall k, m :: 0 <= k < m < |p| ==> p[k] < p[m]
  }

  lemma {:induction false} PositionsIncrease(ids: seq<string>)
    ensures Increasing(FirstPositions(ids))
  {
    if ids != [] {
      var n := |ids| - 1;
      PositionsIncrease(ids[..n]);
      IncreasingSnoc(FirstPositions(ids[..n]), n);
    }
  }

  lemma IncreasingSnoc(p: seq<nat>, n: nat)
    requires Increasing(p) && forall k :: 0 <= k < |p| ==> p[k] < n
    ensures Increasing(p + [n]) && Increasing(p + [])
  {
    assert p + [] == p;
  }

  /** Exactly the first occurrence of every id is kept. */
  lemma {:induction false} FirstOccurrencesKept(ids: seq<string>, i: nat)
    requires i < |ids|
    ensures i in FirstPositions(ids) <==> ids[i] !in ids[..i]
  {
    var n := |ids| - 1;
    if i < n {
      assert ids[..n][..i] == ids[..i];
      FirstOccurrencesKept(ids[..n], i);
    }
  }

  lemma IdsUniqueAfterwards(ids: seq<string>)
    ensures var kept := Select(ids, FirstPositions(ids));
      && (forall k, m :: 0 <= k < m < |kept| ==> kept[k] != kept[m])
      && (forall id :: id in ids ==> id in kept)
  {
    PositionsIncrease(ids);
    var p := FirstPositions(ids);
    var kept := Select(ids, p);
    hide FirstPositions, Select;
    forall k, m | 0 <= k < m < |kept|
      ensures kept[k] != kept[m]
    {
      FirstOccurrencesKept(ids, p[m]);
      assert ids[p[k]] == ids[..p[m]][p[k]];
    }
    forall id | id in ids
      ensures id in kept
    {
      var i := FirstIndex(ids, id);
      FirstOccurrencesKept(ids, i);
      var k :| 0 <= k < |p| && p[k] == i;
      assert kept[k] == id;
    }
  }

  lemma {:induction false} FirstIndex(ids: seq<string>, id: string) returns (i: nat)
    requires id in ids
    ensures i < |ids| && ids[i] == id && id !in ids[..i]
  {
    var n := |ids| - 1;
    if id in ids[..n] {
      i := FirstIndex(ids[..n], id);
      assert ids[..n][..i] == ids[..i];
    } else {
      i := n;
    }
  }

  // ---------- Minimum, maximum, median ----------

  function Present(c: Column): seq<real> {
    if c == [] then []
    else Present(c[..|c| - 1]) + (if c[|c| - 1].Number? then [c[|c| - 1].value] else [])
  }

  function Min(s: seq<real>): (m: real)
    requires s != []
    ensures m in s && forall x :: x in s ==> m <= x
  {
    var last := s[|s| - 1];
    assert s == s[..|s| - 1] + [last];
    if |s| == 1 then last
    else
      var m := Min(s[..|s| - 1]);
      if last < m then last else m
  }

  function Max(s: seq<real>): (m: real)
    requires s != []
    ensures m in s && forall x :: x in s ==> x <= m
  {
    var last := s[|s| - 1];
    assert s == s[..|s| - 1] + [last];
    if |s| == 1 then last
    else
      var m := Max(s[..|s| - 1]);
      if last > m then last else m
  }

  ghost predicate Sorted(s: seq<real>) {
    forall i, j :: 0 <= i < j < |s| ==> s[i] <= s[j]
  }

  function Insert(x: real, s: seq<real>): (r: seq<real>)
    ensures |r| == |s| + 1
  {
    if s == [] then [x]
    else if x >= s[|s| - 1] then s + [x]
    else Insert(x, s[..|s| - 1]) + [s[|s| - 1]]
  }

  function Sort(s: seq<real>): (r: seq<real>)
    ensures |r| == |s|
  {
    if s == [] then [] else Insert(s[|s| - 1], Sort(s[..|s| - 1]))
  }

  /** The middle value, or the mean of the two middle ones. */
  function Middle(t: seq<real>): real
    requires t != []
  {
    if |t| % 2 == 1 then t[|t| / 2] else (t[|t| / 2 - 1] + t[|t| / 2]) / 2.0
  }

  function Median(s: seq<real>): real
    requires s != []
  {
    Middle(Sort(s))
  }

  lemma SortedSnoc(s: seq<real>, last: real)
    requires Sorted(s) && forall y :: y in s ==> y <= last
    ensures Sorted(s + [last])
  {
    var t := s + [last];
    forall i, j | 0 <= i < j < |t|
      ensures t[i] <= t[j]
    {
      assert t[i] in s;
    }
  }

  lemma {:induction false} InsertSorted(x: real, s: seq<real>)
    requires Sorted(s)
    ensures Sorted(Insert(x, s))
    ensures forall y :: y in Insert(x, s) <==> y == x || y in s
  {
    if s != [] {
      var init, last := s[..|s| - 1], s[|s| - 1];
      assert s == init + [last];
      if x >= last {
        SortedSnoc(s, x);
      } else {
        InsertSorted(x, init);
        SortedSnoc(Insert(x, init), last);
      }
    }
  }

  lemma {:induction false} SortSorted(s: seq<real>)
    ensures Sorted(Sort(s))
    ensures forall y :: y in Sort(s) <==> y in s
  {
    if s != [] {
      SortSorted(s[..|s| - 1]);
      InsertSorted(s[|s| - 1], Sort(s[..|s| - 1]));
    }
  }

  lemma MedianInRange(s: seq<real>)
    requires s != []
    ensures Min(s) <= Median(s) <= Max(s)
  {
    SortSorted(s);
    var t := Sort(s);
    assert t[|t| / 2] in t;
    assert |t| % 2 == 0 ==> t[|t| / 2 - 1] in t;
  }

  /** How many values are at most `m`. */
  function AtMost(s: seq<real>, m: real): nat {
    if s == [] then 0 else AtMost(s[..|s| - 1], m) + (if s[|s| - 1] <= m then 1 else 0)
  }

  function AtLeast(s: seq<real>, m: real): nat {
    if s == [] then 0 else AtLeast(s[..|s| - 1], m) + (if s[|s| - 1] >= m then 1 else 0)
  }

  lemma {:induction false} InsertCounts(x: real, s: seq<real>, m: real)
    ensures AtMost(Insert(x, s), m) == AtMost(s, m) + (if x <= m then 1 else 0)
    ensures AtLeast(Insert(x, s), m) == AtLeast(s, m) + (if x >= m then 1 else 0)
  {
    if s != [] {
      var init, last := s[..|s| - 1], s[|s| - 1];
      if x >= last {
        assert (s + [x])[..|s|] == s;
      } else {
        InsertCounts(x, init, m);
        assert (Insert(x, init) + [last])[..|s|] == Insert(x, init);
      }
    }
  }

  lemma {:induction false} SortCounts(s: seq<real>, m: real)
    ensures AtMost(Sort(s), m) == AtMost(s, m) && AtLeast(Sort(s), m) == AtLeast(s, m)
  {
    if s != [] {
      SortCounts(s[..|s| - 1], m);
      InsertCounts(s[|s| - 1], Sort(s[..|s| - 1]), m);
    }
  }

  lemma {:induction false} SortedCounts(t: seq<real>, m: real, k: nat)
    requires Sorted(t) && k <= |t|
    ensures (forall i :: 0 <= i < k ==> t[i] <= m) ==> AtMost(t, m) >= k
    ensures (forall i :: k <= i < |t| ==> t[i] >= m) ==> AtLeast(t, m) >= |t| - k
    decreases |t|
  {
    if t != [] {
      var init := t[..|t| - 1];
      SortedCounts(init, m, if k < |t| then k else |t| - 1);
    }
  }

  lemma MiddleOfSorted(t: seq<real>, i: nat)
    requires Sorted(t) && i < |t|
    ensures i < (|t| + 1) / 2 ==> t[i] <= Middle(t)
    ensures i >= |t| / 2 ==> t[i] >= Middle(t)
  {
    var n := |t|;
    assert i < n / 2 ==> t[i] <= t[n / 2];
    assert i > n / 2 ==> t[n / 2] <= t[i];
    if n % 2 == 0 {
      assert t[n / 2 - 1] <= t[n / 2];
      assert i < n / 2 - 1 ==> t[i] <= t[n / 2 - 1];
    }
  }

  lemma MiddleSplits(t: seq<real>)
    requires Sorted(t) && t != []
    ensures 2 * AtMost(t, Middle(t)) >= |t| && 2 * AtLeast(t, Middle(t)) >= |t|
  {
    hide Middle, AtMost, AtLeast, Sorted;
    forall i: nat | i < |t|
      ensures i < (|t| + 1) / 2 ==> t[i] <= Middle(t)
      ensures i >= |t| / 2 ==> t[i] >= Middle(t)
    {
      MiddleOfSorted(t, i);
    }
    SortedCounts(t, Middle(t), (|t| + 1) / 2);
    SortedCounts(t, Middle(t), |t| / 2);
  }

  /** At least half of the values are at most the median, and at least half are at least it. */
  lemma {:induction false} MedianSplits(s: seq<real>)
    requires s != []
    ensures 2 * AtMost(s, Median(s)) >= |s| && 2 * AtLeast(s, Median(s)) >= |s|
  {
    SortSorted(s);
    SortCounts(s, Median(s));
    MiddleSplits(Sort(s));
    hide Sort, AtMost, AtLeast, Middle, Sorted;
  }

  lemma {:induction false} InsertPermutes(x: real, s: seq<real>)
    ensures multiset(Insert(x, s)) == multiset(s) + multiset{x}
  {
    if s != [] {
      var init, last := s[..|s| - 1], s[|s| - 1];
      assert s == init + [last];
      if x < last { InsertPermutes(x, init); }
    }
  }

  lemma {:induction false} SortPermutes(s: seq<real>)
    ensures multiset(Sort(s)) == multiset(s)
  {
    if s != [] {
      var init, last := s[..|s| - 1], s[|s| - 1];
      assert s == init + [last];
      SortPermutes(init);
      InsertPermutes(last, Sort(init));
    }
  }

  lemma LastIsMax(s: seq<real>, x: real)
    requires Sorted(s) && x in multiset(s)
    ensures x <= s[|s| - 1]
  {
    assert x in s;
  }

  lemma SameInit(a: seq<real>, b: seq<real>, x: real)
    requires multiset(a + [x]) == multiset(b + [x])
    ensures multiset(a) == multiset(b)
  {
    assert multiset(a) == multiset(a + [x]) - multiset{x};
    assert multiset(b) == multiset(b + [x]) - multiset{x};
  }

  lemma InitIsSorted(s: seq<real>)
    requires Sorted(s) && s != []
    ensures Sorted(s[..|s| - 1]) && s == s[..|s| - 1] + [s[|s| - 1]]
  {
  }

  lemma SameLast(a: seq<real>, b: seq<real>)
    requires Sorted(a) && Sorted(b) && multiset(a) == multiset(b) && a != [] && b != []
    ensures a[|a| - 1] == b[|b| - 1]
  {
    var x, y := a[|a| - 1], b[|b| - 1];
    assert x in multiset(a) && y in multiset(b);
    LastIsMax(a, y);
    LastIsMax(b, x);
  }

  /** Values can be put in order in one way only. */
  lemma {:induction false} SortedUnique(a: seq<real>, b: seq<real>)
    requires Sorted(a) && Sorted(b) && multiset(a) == multiset(b)
    ensures a == b
  {
    hide Sorted;
    assert |a| == |multiset(a)| == |multiset(b)| == |b|;
    if a != [] {
      SameLast(a, b);
      InitIsSorted(a);
      InitIsSorted(b);
      SameInit(a[..|a| - 1], b[..|b| - 1], a[|a| - 1]);
      SortedUnique(a[..|a| - 1], b[..|b| - 1]);
    }
  }

  /** However the values are put in order, the median is the one in the middle, or halfway between
      the two in the middle. */
  lemma MedianOfOrdered(s: seq<real>, t: seq<real>)
    requires s != [] && Sorted(t) && multiset(t) == multiset(s)
    ensures |t| == |s|
    ensures |s| % 2 == 1 ==> Median(s) == t[|s| / 2]
    ensures |s| % 2 == 0 ==> Median(s) - t[|s| / 2 - 1] == t[|s| / 2] - Median(s)
  {
    SortSorted(s);
    SortPermutes(s);
    SortedUnique(Sort(s), t);
  }

  function LowPositions(s: seq<real>, m: real): set<nat> {
    set i: nat | i < |s| && s[i] <= m
  }

  function HighPositions(s: seq<real>, m: real): set<nat> {
    set i: nat | i < |s| && s[i] >= m
  }

  lemma PositionsSnoc(s: seq<real>, x: real, m: real)
    ensures LowPositions(s + [x], m) == LowPositions(s, m) + (if x <= m then {|s|} else {})
    ensures HighPositions(s + [x], m) == HighPositions(s, m) + (if x >= m then {|s|} else {})
    ensures |s| !in LowPositions(s, m) && |s| !in HighPositions(s, m)
  {
    var t := s + [x];
    assert forall i: nat :: i < |t| ==> t[i] == if i < |s| then s[i] else x;
  }

  /** The counts are numbers of positions. */
  lemma {:induction false} CountsArePositions(s: seq<real>, m: real)
    ensures AtMost(s, m) == |LowPositions(s, m)| && AtLeast(s, m) == |HighPositions(s, m)|
  {
    if s != [] {
      var init, last := s[..|s| - 1], s[|s| - 1];
      assert s == init + [last];
      CountsArePositions(init, m);
      PositionsSnoc(init, last, m);
      hide LowPositions, HighPositions;
    } else {
      assert LowPositions(s, m) == {} && HighPositions(s, m) == {};
    }
  }

  // ---------- One column ----------

  /** `pd.to_numeric(..., errors="coerce")`. */
  function Coerce(c: Column): (r: Column)
    ensures |r| == |c| && forall i :: 0 <= i < |c| ==> r[i] == if c[i].Number? then c[i] else Missing
  {
    seq(|c|, i requires 0 <= i < |c| => if c[i].Number? then c[i] else Missing)
  }

  /** `fillna(median)`; a column without a number has no median and stays as it is. */
  function Fill(c: Column): (r: Column)
    ensures |r| == |c|
    ensures Present(c) != [] ==> forall i :: 0 <= i < |c| ==> r[i] == if c[i].Missing? then Number(Median(Present(c)))
        else c[i]
    ensures Present(c) == [] ==> r == c
  {
    if Present(c) == [] then c
    else seq(|c|, i requires 0 <= i < |c| => if c[i].Missing? then Number(Median(Present(c))) else c[i])
  }

  function ScaleValue(x: real, lo: real, hi: real): real {
    if hi - lo > 0.0 then (x - lo) / (hi - lo) else 0.0
  }

  /** Min-max scaling; a constant column, or one without a number, becomes 0 throughout. */
  function Scale(c: Column): (r: Column)
    ensures |r| == |c|
  {
    var p := Present(c);
    if p != [] && Max(p) - Min(p) > 0.0 then
      seq(|c|, i requires 0 <= i < |c| => if c[i].Number? then Number(ScaleValue(c[i].value, Min(p), Max(p))) else c[i])
    else seq(|c|, i requires 0 <= i < |c| => Number(0.0))
  }

  function TransformColumn(c: Column): Column {
    Scale(Fill(Coerce(c)))
  }

  lemma {:induction false} PresentHas(c: Column, x: real)
    ensures x in Present(c) <==> Number(x) in c
  {
    if c != [] {
      var init, last := c[..|c| - 1], c[|c| - 1];
      assert c == init + [last];
      PresentHas(init, x);
    }
  }

  lemma SameRange(a: seq<real>, b: seq<real>)
    requires a != [] && b != [] && Min(a) in b && Max(a) in b
    requires forall x :: x in b ==> Min(a) <= x <= Max(a)
    ensures Min(b) == Min(a) && Max(b) == Max(a)
  {
  }

  /** Filling with the median leaves the column's minimum and maximum as they were, and no gap. */
  lemma FillKeepsRange(c: Column)
    requires Present(c) != [] && forall i :: 0 <= i < |c| ==> !c[i].Text?
    ensures var f := Fill(c);
      && (forall i :: 0 <= i < |f| ==> f[i].Number?)
      && Present(f) != [] && Min(Present(f)) == Min(Present(c)) && Max(Present(f)) == Max(Present(c))
  {
    var f, p := Fill(c), Present(c);
    MedianInRange(p);
    hide Median, Present;
    forall x
      ensures x in p ==> x in Present(f)
      ensures x in Present(f) ==> x in p || x == Median(p)
    {
      PresentHas(c, x);
      PresentHas(f, x);
      if Number(x) in c {
        var i :| 0 <= i < |c| && c[i] == Number(x);
        assert f[i] == Number(x);
      }
    }
    assert Min(p) in Present(f);
    SameRange(p, Present(f));
  }

  lemma DivideMonotone(a: real, b: real, d: real)
    requires d > 0.0
    ensures a <= b <==> a / d <= b / d
  {
  }

  lemma ScaleValueMonotone(x: real, y: real, lo: real, hi: real)
    requires lo < hi
    ensures x <= y <==> ScaleValue(x, lo, hi) <= ScaleValue(y, lo, hi)
  {
    DivideMonotone(x - lo, y - lo, hi - lo);
  }

  /** `y` lies between 0 and 1 as `x` does between `lo` and `hi`. */
  predicate IsScaled(y: real, x: real, lo: real, hi: real) {
    y * (hi - lo) == x - lo
  }

  lemma ScaleValueIsLinear(x: real, lo: real, hi: real)
    requires lo < hi
    ensures IsScaled(ScaleValue(x, lo, hi), x, lo, hi)
  {
  }

  lemma ScaleValueEnds(lo: real, hi: real)
    requires lo < hi
    ensures ScaleValue(lo, lo, hi) == 0.0 && ScaleValue(hi, lo, hi) == 1.0
  {
    var d := hi - lo;
    assert d / d == 1.0 && 0.0 / d == 0.0;
  }

  lemma ScaleValueBounds(x: real, lo: real, hi: real)
    requires lo < hi && lo <= x <= hi
    ensures 0.0 <= ScaleValue(x, lo, hi) <= 1.0
  {
    ScaleValueEnds(lo, hi);
    ScaleValueMonotone(lo, x, lo, hi);
    ScaleValueMonotone(x, hi, lo, hi);
    hide ScaleValue;
  }

  lemma RangeIs(s: seq<real>, lo: real, hi: real)
    requires lo in s && hi in s && forall x :: x in s ==> lo <= x <= hi
    ensures Min(s) == lo && Max(s) == hi
  {
  }

  /** The column has two different numbers. */
  predicate Varies(c: Column) {
    Present(c) != [] && Max(Present(c)) - Min(Present(c)) > 0.0
  }

  lemma ScaleOfVarying(c: Column, i: nat)
    requires Varies(c) && i < |c|
    ensures Scale(c)[i] == if c[i].Number? then Number(ScaleValue(c[i].value, Min(Present(c)), Max(Present(c))))
        else c[i]
    ensures c[i].Number? ==> Min(Present(c)) <= c[i].value <= Max(Present(c)) && 0.0 <= Scale(c)[i].value <= 1.0
  {
    if c[i].Number? {
      assert c[i] in c;
      PresentHas(c, c[i].value);
      ScaleValueBounds(c[i].value, Min(Present(c)), Max(Present(c)));
    }
  }

  lemma ScaleOfOther(c: Column, i: nat)
    requires !Varies(c) && i < |c|
    ensures Scale(c)[i] == Number(0.0)
  {
  }

  /** The scaled column of a varying one takes the values 0 and 1. */
  lemma ScaleAttainsEnds(c: Column)
    requires Varies(c)
    ensures Number(0.0) in Scale(c) && Number(1.0) in Scale(c)
  {
    var lo, hi := Min(Present(c)), Max(Present(c));
    PresentHas(c, lo);
    PresentHas(c, hi);
    ScaleValueEnds(lo, hi);
    var i :| 0 <= i < |c| && c[i] == Number(lo);
    var j :| 0 <= j < |c| && c[j] == Number(hi);
    ScaleOfVarying(c, i);
    ScaleOfVarying(c, j);
    hide Scale, ScaleValue, Varies, Present, Min, Max;
    assert Scale(c)[i] == Number(0.0) && Scale(c)[j] == Number(1.0);
  }

  lemma ScaledRange(c: Column)
    requires Varies(c)
    ensures Varies(Scale(c)) && Min(Present(Scale(c))) == 0.0 && Max(Present(Scale(c))) == 1.0
  {
    var s := Scale(c);
    ScaleAttainsEnds(c);
    PresentHas(s, 0.0);
    PresentHas(s, 1.0);
    forall x | x in Present(s)
      ensures 0.0 <= x <= 1.0
    {
      PresentHas(s, x);
      var i :| 0 <= i < |s| && s[i] == Number(x);
      ScaleOfVarying(c, i);
    }
    hide Present, Scale;
    RangeIs(Present(s), 0.0, 1.0);
  }

  lemma ZerosDoNotVary(c: Column)
    requires forall i :: 0 <= i < |c| ==> c[i] == Number(0.0)
    ensures !Varies(c)
  {
    if Present(c) != [] {
      PresentHas(c, Min(Present(c)));
      PresentHas(c, Max(Present(c)));
    }
  }

  /** Normalising twice is normalising once. */
  lemma ScaleIdempotent(c: Column)
    ensures Scale(Scale(c)) == Scale(c)
  {
    var s := Scale(c);
    if Varies(c) {
      ScaledRange(c);
      forall i | 0 <= i < |c|
        ensures Scale(s)[i] == s[i]
      {
        ScaleOfVarying(s, i);
      }
    } else {
      forall i | 0 <= i < |c|
        ensures s[i] == Number(0.0)
      {
        ScaleOfOther(c, i);
      }
      ZerosDoNotVary(s);
      forall i | 0 <= i < |c|
        ensures Scale(s)[i] == s[i]
      {
        ScaleOfOther(s, i);
      }
    }
  }

  /** What the pipeline makes of a column that has two different numbers: every cell is in
      [0, 1], both ends are attained, numbers scale as if the gaps were skipped, order is kept. */
  lemma TransformOfVarying(raw: Column)
    requires Varies(Coerce(raw))
    ensures var c, y := Coerce(raw), TransformColumn(raw);
      && |y| == |raw| && Number(0.0) in y && Number(1.0) in y
      && (forall i :: 0 <= i < |y| ==> y[i].Number? && 0.0 <= y[i].value <= 1.0)
      && (forall i :: 0 <= i < |y| && c[i].Number? ==>
            IsScaled(y[i].value, c[i].value, Min(Present(c)), Max(Present(c))))
      && (forall i, j :: 0 <= i < |y| && 0 <= j < |y| && c[i].Number? && c[j].Number? ==>
            (c[i].value <= c[j].value <==> y[i].value <= y[j].value))
  {
    var c := Coerce(raw);
    var f := Fill(c);
    FillKeepsRange(c);
    ScaleAttainsEnds(f);
    var y, lo, hi := Scale(f), Min(Present(c)), Max(Present(c));
    hide IsScaled, ScaleValue, Present, Fill, Scale, Coerce;
    forall i | 0 <= i < |y|
      ensures y[i].Number? && 0.0 <= y[i].value <= 1.0
      ensures c[i].Number? ==>
        y[i] == Number(ScaleValue(c[i].value, lo, hi)) && IsScaled(y[i].value, c[i].value, lo, hi)
    {
      ScaleOfVarying(f, i);
      if c[i].Number? { ScaleValueIsLinear(c[i].value, lo, hi); }
    }
    forall i, j | 0 <= i < |y| && 0 <= j < |y| && c[i].Number? && c[j].Number?
      ensures c[i].value <= c[j].value <==> y[i].value <= y[j].value
    {
      ScaleValueMonotone(c[i].value, c[j].value, lo, hi);
    }
  }

  /** A column with one number, repeated or not, or with none, becomes 0 throughout. */
  lemma TransformOfOther(raw: Column)
    requires !Varies(Coerce(raw))
    ensures |TransformColumn(raw)| == |raw| && forall i :: 0 <= i < |raw| ==> TransformColumn(raw)[i] == Number(0.0)
  {
    var c := Coerce(raw);
    if Present(c) != [] { FillKeepsRange(c); }
    forall i | 0 <= i < |raw|
      ensures TransformColumn(raw)[i] == Number(0.0)
    {
      ScaleOfOther(Fill(c), i);
    }
  }

  // ---------- Conversions that may raise ----------

  /** A conversion of cells, as `to_datetime` or `astype(int)`; None where it raises. */
  type Conversion = Cell -> Option<Cell>

  predicate Converts(f: Conversion, c: Column) {
    forall i :: 0 <= i < |c| ==> f(c[i]).Some?
  }

  function Converted(f: Conversion, c: Column): (r: Column)
    requires Converts(f, c)
    ensures |r| == |c| && forall i :: 0 <= i < |c| ==> Some(r[i]) == f(c[i])
  {
    seq(|c|, i requires 0 <= i < |c| => f(c[i]).value)
  }

  /** What `clean` makes of a column, its conversions not raising. */
  function CleanColumn(name: string, kept: Column, utc: Conversion, whole: Conversion): (r: Column)
    requires name == TIME_COL ==> Converts(utc, kept)
    requires name == LABEL_COL ==> Converts(whole, kept)
  {
    if name == TIME_COL then Converted(utc, kept)
    else if name == LABEL_COL then Converted(whole, kept)
    else if name in NUMERIC_COLS then Fill(Coerce(kept))
    else kept
  }

  // ---------- The table ----------

  /** A data frame: the row ids and the columns, overwritten in place. */
  class DataFrame {
    var ids: seq<string>
    var columns: map<string, Column>

    constructor (ids: seq<string>, columns: map<string, Column>)
      ensures this.ids == ids && this.columns == columns
    {
      this.ids, this.columns := ids, columns;
    }

    ghost predicate Valid()
      reads this
    {
      && (forall name :: name in columns ==> |columns[name]| == |ids|)
      && (forall name :: name in NUMERIC_COLS ==> name in columns)
    }

    /** `df[name] = convert(df[name])`; a conversion that raises changes nothing. */
    method Convert(name: string, f: Conversion) returns (ok: bool)
      requires Valid() && name in columns
      modifies this`columns
      ensures Valid() && (ok <==> Converts(f, old(columns)[name]))
      ensures columns == if ok then old(columns)[name := Converted(f, old(columns)[name])] else old(columns)
    {
      ok := Converts(f, columns[name]);
      if ok { columns := columns[name := Converted(f, columns[name])]; }
    }

    /** `df[name] = f(df[name])` for each numeric column in turn. */
    method Overwrite(f: Column -> Column)
      requires Valid() && forall c :: |f(c)| == |c|
      modifies this`columns
      ensures Valid() && columns.Keys == old(columns).Keys
      ensures forall name :: name in columns ==>
          columns[name] == if name in NUMERIC_COLS then f(old(columns)[name]) else old(columns)[name]
    {
      var i := 0;
      while i < |NUMERIC_COLS|
        invariant 0 <= i <= |NUMERIC_COLS| && Valid() && columns.Keys == old(columns).Keys
        invariant forall name :: name in columns ==>
            columns[name] == if name in NUMERIC_COLS[..i] then f(old(columns)[name]) else old(columns)[name]
      {
        var name := NUMERIC_COLS[i];
        assert NUMERIC_COLS[..i + 1] == NUMERIC_COLS[..i] + [name] && name !in NUMERIC_COLS[..i];
        columns := columns[name := f(columns[name])];
        i := i + 1;
      }
      assert NUMERIC_COLS[..i] == NUMERIC_COLS;
    }

    /** The two loops of `clean` over the numeric columns. */
    method CoerceAndFill()
      requires Valid()
      modifies this`columns
      ensures Valid() && columns.Keys == old(columns).Keys
      ensures forall name :: name in columns ==>
          columns[name] == if name in NUMERIC_COLS then Fill(Coerce(old(columns)[name])) else old(columns)[name]
    {
      hide Coerce, Fill;
      Overwrite(c => Coerce(c));
      Overwrite(c => Fill(c));
    }
  }

  /** The column of the rows that `drop_duplicates` keeps. */
  ghost function Kept(df: DataFrame, name: string): Column
    requires df.Valid() && name in df.columns
    reads df
  {
    Select(df.columns[name], FirstPositions(df.ids))
  }

  ghost predicate Cleanable(df: DataFrame, utc: Conversion, whole: Conversion)
    requires df.Valid() && TIME_COL in df.columns && LABEL_COL in df.columns
    reads df
  {
    Converts(utc, Kept(df, TIME_COL)) && Converts(whole, Kept(df, LABEL_COL))
  }

  /** `clean`: a new frame with the first row of each id, times and labels converted, numbers
      coerced and gaps filled. It raises exactly when a conversion of a kept row does. */
  method Clean(df: DataFrame, utc: Conversion, whole: Conversion) returns (r: Option<DataFrame>)
    requires df.Valid() && TIME_COL in df.columns && LABEL_COL in df.columns
    ensures r.Some? <==> Cleanable(df, utc, whole)
    ensures r.Some? ==> fresh(r.value) && r.value.Valid() && r.value.columns.Keys == df.columns.Keys
    ensures r.Some? ==> r.value.ids == Select(df.ids, FirstPositions(df.ids))
    ensures r.Some? ==> forall name :: name in r.value.columns ==>
        r.value.columns[name] == CleanColumn(name, Kept(df, name), utc, whole)
  {
    OtherColumns();
    hide FirstPositions, Coerce, Fill;
    var positions := FirstPositions(df.ids);
    var d := new DataFrame(Select(df.ids, positions),
        map name | name in df.columns :: Select(df.columns[name], positions));
    var ok := d.Convert(TIME_COL, utc);
    if !ok { return None; }
    d.CoerceAndFill();
    ok := d.Convert(LABEL_COL, whole);
    if !ok { return None; }
    return Some(d);
  }

  /** `normalise`. */
  method Normalise(df: DataFrame) returns (r: DataFrame)
    requires df.Valid()
    ensures fresh(r) && r.Valid() && r.ids == df.ids && r.columns.Keys == df.columns.Keys
    ensures forall name :: name in r.columns ==>
        r.columns[name] == if name in NUMERIC_COLS then Scale(df.columns[name]) else df.columns[name]
  {
    r := new DataFrame(df.ids, df.columns);
    r.Overwrite(c => Scale(c));
  }

  /** `transform`: clean, then normalise. */
  method Transform(df: DataFrame, utc: Conversion, whole: Conversion) returns (r: Option<DataFrame>)
    requires df.Valid() && TIME_COL in df.columns && LABEL_COL in df.columns
    ensures r.Some? <==> Cleanable(df, utc, whole)
    ensures r.Some? ==> fresh(r.value) && r.value.Valid() && r.value.columns.Keys == df.columns.Keys
    ensures r.Some? ==> r.value.ids == Select(df.ids, FirstPositions(df.ids))
    ensures r.Some? ==> forall name :: name in r.value.columns ==>
        r.value.columns[name] ==
          if name in NUMERIC_COLS then TransformColumn(Kept(df, name))
              else CleanColumn(name, Kept(df, name), utc, whole)
  {
    OtherColumns();
    var cleaned := Clean(df, utc, whole);
    if cleaned.None? { return None; }
    var d := Normalise(cleaned.value);
    return Some(d);
  }
}
