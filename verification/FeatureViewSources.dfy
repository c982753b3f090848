/** Which data source a feature view reads from: the walk up the first parents. */
module FeatureViewSources {
  import opened Outcomes
  import opened FeatureViews

  predicate Derived(g: ViewGraph, n: Name)
    requires n in g
  {
    g[n].sourceViews != []
  }

  /** The view `k` first-parent steps above `n`; an underived view has no step to take. */
  function Ancestor(g: ViewGraph, n: Name, k: nat): (r: Name)
    requires n in g
    ensures r in g
  {
    if k == 0 then n
    else
      var m := Ancestor(g, n, k - 1);
      if Derived(g, m) then g[m].sourceViews[0] else m
  }

  /** The walk reaches an underived view. */
  ghost predicate ChainEnds(g: ViewGraph, n: Name)
    requires n in g
  {
    exists k: nat :: !Derived(g, Ancestor(g, n, k))
  }

  /** The walk comes back to a view it has already left. */
  ghost predicate ChainRepeats(g: ViewGraph, n: Name)
    requires n in g
  {
    exists i: nat, j: nat :: i < j && Ancestor(g, n, i) == Ancestor(g, n, j) && Derived(g, Ancestor(g, n, i))
  }

  ghost predicate IsOriginal(g: ViewGraph, n: Name, r: Name)
    requires n in g
  {
    r in g && !Derived(g, r) && exists k: nat :: Ancestor(g, n, k) == r
  }

  lemma {:induction false} StaysAtOriginal(g: ViewGraph, n: Name, k: nat, m: nat)
    requires n in g && !Derived(g, Ancestor(g, n, k)) && k <= m
    ensures Ancestor(g, n, m) == Ancestor(g, n, k)
    decreases m
  {
    if k < m { StaysAtOriginal(g, n, k, m - 1); }
  }

  lemma OriginalUnique(g: ViewGraph, n: Name, r: Name, r': Name)
    requires n in g && IsOriginal(g, n, r) && IsOriginal(g, n, r')
    ensures r == r'
  {
    var k: nat :| Ancestor(g, n, k) == r;
    var m: nat :| Ancestor(g, n, m) == r';
    if k <= m { StaysAtOriginal(g, n, k, m); } else { StaysAtOriginal(g, n, m, k); }
  }

  /** Each view of the walk is the first source view of the one before. */
  ghost predicate FirstParents(g: ViewGraph, p: seq<Name>) {
    && p != [] && (forall i :: 0 <= i < |p| ==> p[i] in g)
    && forall i :: 0 <= i < |p| - 1 ==> g[p[i]].sourceViews != [] && p[i + 1] == g[p[i]].sourceViews[0]
  }

  lemma {:induction false} WalkIsAncestor(g: ViewGraph, n: Name, p: seq<Name>)
    requires FirstParents(g, p) && p[0] == n
    ensures n in g && Ancestor(g, n, |p| - 1) == p[|p| - 1]
    decreases |p|
  {
    if |p| > 1 {
      var q := p[..|p| - 1];
      assert forall i :: 0 <= i < |q| ==> q[i] == p[i];
      assert FirstParents(g, q);
      WalkIsAncestor(g, n, q);
      assert g[p[|p| - 2]].sourceViews != [] && p[|p| - 2 + 1] == g[p[|p| - 2]].sourceViews[0];
    }
  }

  lemma {:induction false} AncestorHasWalk(g: ViewGraph, n: Name, k: nat) returns (p: seq<Name>)
    requires n in g
    ensures FirstParents(g, p) && p[0] == n && p[|p| - 1] == Ancestor(g, n, k)
  {
    if k == 0 {
      p := [n];
    } else {
      var q := AncestorHasWalk(g, n, k - 1);
      var m := Ancestor(g, n, k - 1);
      p := if Derived(g, m) then q + [g[m].sourceViews[0]] else q;
      assert forall i :: 0 <= i < |q| ==> p[i] == q[i];
    }
  }

  /** The original view is the underived one at the end of a walk up the first source views. */
  lemma OriginalEndsWalk(g: ViewGraph, n: Name, r: Name)
    requires n in g
    ensures IsOriginal(g, n, r) <==>
      exists p :: FirstParents(g, p) && p[0] == n && p[|p| - 1] == r && g[r].sourceViews == []
  {
    if IsOriginal(g, n, r) {
      var k: nat :| Ancestor(g, n, k) == r;
      var p := AncestorHasWalk(g, n, k);
    }
    if p :| FirstParents(g, p) && p[0] == n && p[|p| - 1] == r && g[r].sourceViews == [] {
      WalkIsAncestor(g, n, p);
    }
  }

  // ---------- When the walk ends ----------

  lemma {:induction false} ShiftedWalk(g: ViewGraph, n: Name, i: nat, j: nat, m: nat)
    requires n in g && Ancestor(g, n, i) == Ancestor(g, n, j)
    ensures Ancestor(g, n, i + m) == Ancestor(g, n, j + m)
  {
    if m > 0 { ShiftedWalk(g, n, i, j, m - 1); }
  }

  /** A walk that repeats goes round for ever: the repeated view is met again however far one goes. */
  lemma {:induction false} RoundAndRound(g: ViewGraph, n: Name, i: nat, j: nat, k: nat) returns (m: nat)
    requires n in g && i < j && Ancestor(g, n, i) == Ancestor(g, n, j)
    ensures m >= k && m >= i && Ancestor(g, n, m) == Ancestor(g, n, i)
  {
    hide Ancestor;
    if k <= i {
      m := i;
    } else {
      m := RoundAndRound(g, n, i, j, k - 1);
      ShiftedWalk(g, n, i, j, m - i);
      m := m + (j - i);
    }
  }

  lemma {:induction false} DistinctFitsInSet(names: seq<Name>, s: set<Name>)
    requires forall i, j :: 0 <= i < j < |names| ==> names[i] != names[j]
    requires forall i :: 0 <= i < |names| ==> names[i] in s
    ensures |names| <= |s|
  {
    if names != [] {
      var n := |names| - 1;
      DistinctFitsInSet(names[..n], s - {names[n]});
    }
  }

  lemma RepeatNeverEnds(g: ViewGraph, n: Name, i: nat, j: nat, k: nat)
    requires n in g && i < j && Ancestor(g, n, i) == Ancestor(g, n, j) && Derived(g, Ancestor(g, n, i))
    ensures Derived(g, Ancestor(g, n, k))
  {
    hide Ancestor;
    if !Derived(g, Ancestor(g, n, k)) {
      var m := RoundAndRound(g, n, i, j, k);
      StaysAtOriginal(g, n, k, m);
    }
  }

  lemma NoEndRepeats(g: ViewGraph, n: Name)
    requires n in g && forall k: nat :: Derived(g, Ancestor(g, n, k))
    ensures ChainRepeats(g, n)
  {
    hide Ancestor;
    var names := seq(|g.Keys| + 1, k requires k >= 0 => Ancestor(g, n, k));
    if forall i, j :: 0 <= i < j < |names| ==> names[i] != names[j] {
      DistinctFitsInSet(names, g.Keys);
    }
    var i, j :| 0 <= i < j < |names| && names[i] == names[j];
    assert Derived(g, Ancestor(g, n, i));
  }

  /** The walk ends exactly when it never repeats. */
  lemma ChainEndsIffNoRepeat(g: ViewGraph, n: Name)
    requires n in g
    ensures ChainEnds(g, n) <==> !ChainRepeats(g, n)
  {
    hide Ancestor;
    if ChainRepeats(g, n) {
      var i: nat, j: nat :| i < j && Ancestor(g, n, i) == Ancestor(g, n, j) && Derived(g, Ancestor(g, n, i));
      forall k: nat
        ensures Derived(g, Ancestor(g, n, k))
      {
        RepeatNeverEnds(g, n, i, j, k);
      }
    } else if !ChainEnds(g, n) {
      NoEndRepeats(g, n);
    }
  }

  lemma {:induction false} AncestorsWalk(g: ViewGraph, n: Name, k: nat)
    requires n in g && forall i: nat :: i < k ==> Derived(g, Ancestor(g, n, i))
    ensures Walk(g, seq(k + 1, i requires i >= 0 => Ancestor(g, n, i)))
  {
    var p := seq(k + 1, i requires i >= 0 => Ancestor(g, n, i));
    forall i | 0 <= i < |p| - 1
      ensures Edge(g, p[i], p[i + 1])
    {
      assert Derived(g, Ancestor(g, n, i)) && g[p[i]].sourceViews[0] == p[i + 1];
    }
  }

  lemma RepeatIsCycle(g: ViewGraph, n: Name, i: nat, j: nat)
    requires n in g && i < j && Ancestor(g, n, i) == Ancestor(g, n, j) && Derived(g, Ancestor(g, n, i))
    ensures CycleReachable(g, n)
  {
    forall k: nat | k < j
      ensures Derived(g, Ancestor(g, n, k))
    {
      RepeatNeverEnds(g, n, i, j, k);
    }
    AncestorsWalk(g, n, j);
    assert Lasso(g, n, seq(j + 1, k requires k >= 0 => Ancestor(g, n, k)), i);
  }

  /** In particular it ends when no cycle can be reached, as for any view that serialises. */
  lemma AcyclicChainEnds(g: ViewGraph, n: Name)
    requires n in g && !CycleReachable(g, n)
    ensures ChainEnds(g, n)
  {
    ChainEndsIffNoRepeat(g, n);
    if ChainRepeats(g, n) {
      var i: nat, j: nat :| i < j && Ancestor(g, n, i) == Ancestor(g, n, j) && Derived(g, Ancestor(g, n, i));
      RepeatIsCycle(g, n, i, j);
    }
  }

  // ---------- The two functions ----------

  method FindOriginalSourceView(g: ViewGraph, n: Name) returns (current: Name)
    requires n in g && ChainEnds(g, n)
    ensures IsOriginal(g, n, current)
  {
    current := n;
    ghost var end: nat :| !Derived(g, Ancestor(g, n, end));
    ghost var i: nat := 0;
    while g[current].sourceViews != []
      invariant current in g && i <= end && current == Ancestor(g, n, i)
      decreases end - i
    {
      if i == end { assert false; }
      current := g[current].sourceViews[0];
      i := i + 1;
      assert current == Ancestor(g, n, i);
    }
  }

  datatype SourceType = BatchSource | SinkSource | OriginalSource

  datatype SourceInfo = SourceInfo(dataSource: Option<DataSource>, sourceType: SourceType)

  datatype ResolveError = UnableToResolve

  /** `resolve_feature_view_source`. The parent's sink is read exactly in a materialization of a
      derived view whose parent has one that exists; outside materialization, and wherever the
      sink is not read, the result is the batch source of the original view, whatever the depth.
      It fails exactly when the parent of a derived view is underived and has no batch source. */
  method ResolveSource(g: ViewGraph, n: Name, sinkOf: Name -> Option<DataSource>, sinkExists: DataSource -> bool,
      materializing: bool)
    returns (r: Result<SourceInfo, ResolveError>)
    requires n in g
    requires
      || ChainEnds(g, n)
      || (&& materializing && g[n].sourceViews != [] && sinkOf(g[n].sourceViews[0]).Some?
          && sinkExists(sinkOf(g[n].sourceViews[0]).value))
    ensures r.Ok? && r.value.sourceType == SinkSource <==>
      && materializing && g[n].sourceViews != [] && sinkOf(g[n].sourceViews[0]).Some?
      && sinkExists(sinkOf(g[n].sourceViews[0]).value)
    ensures r.Ok? && r.value.sourceType == SinkSource ==> r.value.dataSource == sinkOf(g[n].sourceViews[0])
    ensures r.Ok? && r.value.sourceType != SinkSource ==>
      && (forall o :: IsOriginal(g, n, o) ==> r.value.dataSource == g[o].batchSource)
      && (r.value.sourceType == OriginalSource <==> g[n].sourceViews != [] && g[g[n].sourceViews[0]].sourceViews != [])
    ensures !materializing && r.Ok? ==>
      r.value.sourceType != SinkSource && forall o :: IsOriginal(g, n, o) ==> r.value.dataSource == g[o].batchSource
    ensures r.Err? <==>
      && g[n].sourceViews != [] && g[g[n].sourceViews[0]].sourceViews == [] && g[g[n].sourceViews[0]].batchSource.None?
      && !(materializing && sinkOf(g[n].sourceViews[0]).Some? && sinkExists(sinkOf(g[n].sourceViews[0]).value))
  {
    if !Derived(g, n) {
      OriginalIs(g, n, n, 0);
      return Ok(SourceInfo(g[n].batchSource, BatchSource));
    }
    var parent := g[n].sourceViews[0];
    if materializing && sinkOf(parent).Some? && sinkExists(sinkOf(parent).value) {
      return Ok(SourceInfo(sinkOf(parent), SinkSource));
    }
    if Derived(g, parent) {
      ParentChain(g, n);
      var original := FindOriginalSourceView(g, parent);
      OriginalOfParent(g, n, original);
      return Ok(SourceInfo(g[original].batchSource, OriginalSource));
    } else if g[parent].batchSource.Some? {
      OriginalIs(g, n, parent, 1);
      return Ok(SourceInfo(g[parent].batchSource, BatchSource));
    }
    return Err(UnableToResolve);
  }

  lemma OriginalIs(g: ViewGraph, n: Name, r: Name, k: nat)
    requires n in g && r in g && !Derived(g, r) && Ancestor(g, n, k) == r
    ensures forall o :: IsOriginal(g, n, o) ==> o == r
  {
    forall o | IsOriginal(g, n, o)
      ensures o == r
    {
      assert IsOriginal(g, n, r);
      OriginalUnique(g, n, o, r);
    }
  }

  lemma {:induction false} AncestorOfParent(g: ViewGraph, n: Name, k: nat)
    requires n in g && Derived(g, n)
    ensures Ancestor(g, g[n].sourceViews[0], k) == Ancestor(g, n, k + 1)
  {
    if k > 0 { AncestorOfParent(g, n, k - 1); }
  }

  lemma ParentChain(g: ViewGraph, n: Name)
    requires n in g && Derived(g, n) && ChainEnds(g, n)
    ensures ChainEnds(g, g[n].sourceViews[0])
  {
    var k: nat :| !Derived(g, Ancestor(g, n, k));
    AncestorOfParent(g, n, k - 1);
  }

  lemma OriginalOfParent(g: ViewGraph, n: Name, r: Name)
    requires n in g && Derived(g, n) && IsOriginal(g, g[n].sourceViews[0], r)
    ensures forall o :: IsOriginal(g, n, o) ==> o == r
  {
    var k: nat :| Ancestor(g, g[n].sourceViews[0], k) == r;
    AncestorOfParent(g, n, k);
    OriginalIs(g, n, r, k + 1);
  }
}
