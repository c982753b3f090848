/** What survives `from_proto(to_proto(v))`. */
module FeatureViewRoundTrip {
  import opened Outcomes
  import opened FeatureViews
  import opened FeatureViewSerialisation

  /** The constructor accepts the rebuilt view: a derived view has a sink, any other
      has a batch source, which carries its own if it is a stream. */
  predicate Constructible(v: View) {
    v.batchSource.Some? && (v.sourceViews == [] && IsStream(v.batchSource.value) ==>
        v.batchSource.value.batchSource.Some?)
  }

  /** The batch source is one the constructor stores as it is. */
  predicate PlainSource(v: View) {
    v.sourceViews != [] || v.batchSource.None? || !IsStream(v.batchSource.value)
  }

  /** The stated losses: an absent ttl becomes 0, an empty mode becomes absent, and
      a nested view loses its timestamps and materialization intervals. */
  function Normalised(v: View, isRoot: bool): View {
    var w := v.(ttl := Some(if v.ttl.None? then 0 else v.ttl.value), mode := if v.mode == Some("") then None
        else v.mode);
    if isRoot then w else w.(created := None, lastUpdated := None, intervals := [])
  }

  /** What a constructible view comes back as. */
  function Rebuilt(v: View, isRoot: bool): View
    requires Constructible(v)
  {
    if PlainSource(v) then Normalised(v, isRoot)
    else Normalised(v, isRoot).(
      batchSource := v.batchSource.value.batchSource,
      streamSource := if v.streamSource.Some? then v.streamSource else v.batchSource)
  }

  lemma RebuildIsRebuilt(g: ViewGraph, n: Name, s: Spec, isRoot: bool)
    requires IsUnfolding(g, n, s)
    ensures var r := Rebuild(s, if isRoot then ToMeta(g[n]) else NO_META, g[n].sourceViews);
      if Constructible(g[n]) then r == Ok(Rebuilt(g[n], isRoot)) else r.Err?
  {
    RebuildViewIsRebuilt(g[n], s.sourceViews, isRoot);
    hide IsUnfolding, Rebuild, Rebuilt, Constructible;
  }

  lemma RebuildViewIsRebuilt(v: View, specs: seq<Spec>, isRoot: bool)
    ensures var r := Rebuild(ToSpec(v, specs), if isRoot then ToMeta(v) else NO_META, v.sourceViews);
      if Constructible(v) then r == Ok(Rebuilt(v, isRoot)) else r.Err?
  {
    if v.sourceViews != [] {
      RebuildDerived(v, specs, isRoot);
    } else {
      RebuildUnderived(v, specs, isRoot);
    }
    hide Rebuild, Rebuilt, ToSpec, ToMeta;
  }

  lemma RebuildDerived(v: View, specs: seq<Spec>, isRoot: bool)
    requires v.sourceViews != []
    ensures var r := Rebuild(ToSpec(v, specs), if isRoot then ToMeta(v) else NO_META, v.sourceViews);
      if v.batchSource.Some? then r == Ok(Rebuilt(v, isRoot)) else r.Err?
  {
    var meta := if isRoot then ToMeta(v) else NO_META;
    assert [] + meta.intervals == meta.intervals;
  }

  lemma RebuildUnderived(v: View, specs: seq<Spec>, isRoot: bool)
    requires v.sourceViews == []
    ensures var r := Rebuild(ToSpec(v, specs), if isRoot then ToMeta(v) else NO_META, v.sourceViews);
      if Constructible(v) then r == Ok(Rebuilt(v, isRoot)) else r.Err?
  {
    var meta := if isRoot then ToMeta(v) else NO_META;
    assert [] + meta.intervals == meta.intervals;
  }

  /** A view comes back unchanged, but for the stated losses, exactly when its batch source is plain. */
  lemma RebuiltIsNormalised(v: View, isRoot: bool)
    requires Constructible(v)
    ensures Rebuilt(v, isRoot) == Normalised(v, isRoot) <==> PlainSource(v)
  {
    if !PlainSource(v) {
      assert v.batchSource.value.batchSource.value < v.batchSource.value;
    }
  }

  /** What a view comes back with, field by field: its own fields but for an absent ttl, an empty
      mode, a nested view's times and, where a view that is not derived has a stream for its batch
      source, that source's own. A stream source is never replaced. */
  predicate ComesBackAs(v: View, r: View, isRoot: bool) {
    SameButForSources(v, r, isRoot) && SourcesComeBackAs(v, r)
  }

  predicate SameButForSources(v: View, r: View, isRoot: bool) {
    && r.name == v.name && r.entities == v.entities && r.entityColumns == v.entityColumns
    && r.features == v.features && r.sourceViews == v.sourceViews
    && r.online == v.online && r.offline == v.offline && r.enableValidation == v.enableValidation
    && r.description == v.description && r.tags == v.tags && r.owner == v.owner
    && (v.ttl.Some? ==> r.ttl == v.ttl) && (v.ttl.None? ==> r.ttl == Some(0))
    && (v.mode != Some("") ==> r.mode == v.mode) && r.mode != Some("")
    && (isRoot ==> r.created == v.created && r.lastUpdated == v.lastUpdated && r.intervals == v.intervals)
    && (!isRoot ==> r.created == None && r.lastUpdated == None && r.intervals == [])
  }

  predicate SourcesComeBackAs(v: View, r: View) {
    && v.batchSource.Some? && (v.streamSource.Some? ==> r.streamSource == v.streamSource)
    && (HasStreamForBatch(v) ==>
          && r.batchSource == v.batchSource.value.batchSource
          && (v.streamSource.None? ==> r.streamSource == v.batchSource))
    && (!HasStreamForBatch(v) ==> r.batchSource == v.batchSource && r.streamSource == v.streamSource)
  }

  predicate HasStreamForBatch(v: View) {
    v.sourceViews == [] && v.batchSource.Some? && v.batchSource.value.kind != BatchKind
  }

  lemma RebuiltComesBack(v: View, isRoot: bool)
    requires Constructible(v)
    ensures ComesBackAs(v, Rebuilt(v, isRoot), isRoot)
  {
    NormalisedFields(v, isRoot);
    NormalisedSources(v, isRoot);
    hide Normalised;
  }

  lemma NormalisedFields(v: View, isRoot: bool)
    ensures SameButForSources(v, Normalised(v, isRoot), isRoot)
  {
  }

  lemma NormalisedSources(v: View, isRoot: bool)
    ensures Normalised(v, isRoot).batchSource == v.batchSource && Normalised(v, isRoot).streamSource == v.streamSource
  {
  }

  /** A view the constructor refuses: one without a batch source, or not derived and with a stream
      that has none of its own. */
  predicate Refused(v: View) {
    v.batchSource == None || (HasStreamForBatch(v) && v.batchSource.value.batchSource == None)
  }

  lemma RefusedIff(v: View)
    ensures Refused(v) <==> !Constructible(v)
  {
  }

  const TABLE := DataSource("table", BatchKind, None)
  const PUSHED := DataSource("pushed", PushKind, Some(TABLE))
  const NESTED := DataSource("nested", PushKind, Some(PUSHED))

  /** A concrete case: the view that is built over a push source whose batch source is itself a push
      source comes back with the innermost table for its batch source. */
  lemma NestedPushSourceIsLost(v: View)
    requires Normalise(FromSource(NESTED), None) == Ok((v.batchSource, v.streamSource, v.sourceViews))
    ensures v.batchSource == Some(PUSHED)
    ensures FromSpec(ToSpec(v, []), ToMeta(v), map[]).Ok?
    ensures FromSpec(ToSpec(v, []), ToMeta(v), map[]).value.0.batchSource == Some(TABLE)
  {
    var s := ToSpec(v, []);
    assert FromSpecs([], map[s.name := None]) == Ok(([], map[s.name := None]));
    assert FromSpec(s, ToMeta(v), map[]) == FinishSpec(s, ToMeta(v), Ok(([], map[s.name := None])));
    RebuildUnderived(v, [], true);
    hide ToSpec, ToMeta, Rebuild, FromSpec, FromSpecs;
  }

  // ---------- The memoised walk of the proto ----------

  /** `stack` holds the specs whose views are being built, outermost first. */
  ghost predicate StackOk(g: ViewGraph, stack: seq<Spec>, s: Spec) {
    forall k :: 0 <= k < |stack| ==> IsUnfolding(g, stack[k].name, stack[k]) && s < stack[k]
  }

  ghost predicate InProgress(stack: seq<Spec>, m: Name) {
    exists k :: 0 <= k < |stack| && stack[k].name == m
  }

  ghost predicate Done(seen: Seen, m: Name) {
    m in seen && seen[m].Some?
  }

  /** A finished view is the rebuilt one, and so are all its sources. */
  ghost predicate GoodEntry(g: ViewGraph, seen: Seen, root: Name, m: Name) {
    && m in g && Constructible(g[m]) && m in seen && seen[m] == Some(Rebuilt(g[m], m == root))
    && forall i :: 0 <= i < |g[m].sourceViews| ==> Done(seen, g[m].sourceViews[i])
  }

  ghost predicate Built(g: ViewGraph, seen: Seen, stack: seq<Spec>, root: Name) {
    && (forall m :: m in seen ==> Reachable(g, root, m) && (seen[m].None? ==> InProgress(stack, m)))
    && (forall m :: Done(seen, m) ==> GoodEntry(g, seen, root, m))
  }

  ghost predicate Grows(seen: Seen, seen': Seen) {
    forall m :: Done(seen, m) ==> Done(seen', m)
  }

  /** Some view reachable from `root` cannot be constructed. */
  ghost predicate Unbuildable(g: ViewGraph, root: Name) {
    exists m :: Reachable(g, root, m) && m in g && !Constructible(g[m])
  }

  lemma NotInProgress(g: ViewGraph, n: Name, s: Spec, stack: seq<Spec>)
    requires IsUnfolding(g, n, s) && StackOk(g, stack, s)
    ensures !InProgress(stack, n)
  {
    if k :| 0 <= k < |stack| && stack[k].name == n {
      UnfoldingUnique(g, n, s, stack[k]);
      assert false;
    }
  }

  lemma ReachableSource(g: ViewGraph, root: Name, n: Name, i: nat)
    requires Reachable(g, root, n) && n in g && i < |g[n].sourceViews|
    ensures Reachable(g, root, g[n].sourceViews[i])
  {
    var p :| Walk(g, p) && p[0] == root && p[|p| - 1] == n;
    assert Edge(g, n, g[n].sourceViews[i]);
    WalkSnoc(g, p, g[n].sourceViews[i]);
    assert (p + [g[n].sourceViews[i]])[0] == root;
  }

  lemma StartBuilding(g: ViewGraph, seen: Seen, stack: seq<Spec>, root: Name, s: Spec)
    requires Built(g, seen, stack, root) && s.name !in seen && Reachable(g, root, s.name)
    ensures Built(g, seen[s.name := None], stack + [s], root)
    ensures Grows(seen, seen[s.name := None])
  {
    var seen' := seen[s.name := None];
    hide Rebuilt, Constructible, Reachable;
    forall m | m in seen' && seen'[m].None?
      ensures InProgress(stack + [s], m)
    {
      if m == s.name {
        assert (stack + [s])[|stack|] == s;
      } else {
        var k :| 0 <= k < |stack| && stack[k].name == m;
        assert (stack + [s])[k] == stack[k];
      }
    }
    forall m | Done(seen', m)
      ensures GoodEntry(g, seen', root, m)
    {
      assert Done(seen, m) && GoodEntry(g, seen, root, m);
      forall i | 0 <= i < |g[m].sourceViews|
        ensures Done(seen', g[m].sourceViews[i])
      {
        assert Done(seen, g[m].sourceViews[i]);
      }
    }
  }

  lemma FinishBuilding(g: ViewGraph, seen: Seen, stack: seq<Spec>, root: Name, s: Spec)
    requires Built(g, seen, stack + [s], root) && s.name in g && Reachable(g, root, s.name) && Constructible(g[s.name])
    requires forall i :: 0 <= i < |g[s.name].sourceViews| ==> Done(seen, g[s.name].sourceViews[i])
    ensures Built(g, seen[s.name := Some(Rebuilt(g[s.name], s.name == root))], stack, root)
    ensures Grows(seen, seen[s.name := Some(Rebuilt(g[s.name], s.name == root))])
  {
    var seen' := seen[s.name := Some(Rebuilt(g[s.name], s.name == root))];
    hide Rebuilt, Constructible, Reachable;
    forall m | m in seen' && seen'[m].None?
      ensures InProgress(stack, m)
    {
      var k :| 0 <= k < |stack + [s]| && (stack + [s])[k].name == m;
      assert stack[k].name == m;
    }
    forall m | Done(seen', m)
      ensures GoodEntry(g, seen', root, m)
    {
      assert m != s.name ==> Done(seen, m) && GoodEntry(g, seen, root, m);
      forall i | 0 <= i < |g[m].sourceViews|
        ensures Done(seen', g[m].sourceViews[i])
      {
        assert Done(seen, g[m].sourceViews[i]);
      }
    }
  }

  /** `root` is the outermost view being built, or `s` itself. */
  ghost predicate RootIs(stack: seq<Spec>, s: Spec, root: Name) {
    (if stack == [] then s.name else stack[0].name) == root
  }

  lemma OnlyOutermostIsRoot(g: ViewGraph, s: Spec, stack: seq<Spec>, root: Name)
    requires IsUnfolding(g, s.name, s) && StackOk(g, stack, s) && RootIs(stack, s, root)
    ensures s.name == root <==> stack == []
  {
    NotInProgress(g, s.name, s, stack);
    if stack != [] { assert stack[0].name == root; }
  }

  /** What building the view of `s` does to the views built so far. */
  ghost predicate BuildsView(g: ViewGraph, root: Name, s: Spec, stack: seq<Spec>, seen: Seen, r: Result<(View, Seen),
      Error>) {
    match r
    case Err(_) => Unbuildable(g, root)
    case Ok((v, seen')) =>
      Built(g, seen', stack, root) && Grows(seen, seen') && Done(seen', s.name) && seen'[s.name] == Some(v) &&
          v.name == s.name
  }

  /** What building the views of the first `k` sources of `s` does. */
  ghost predicate BuildsSources(g: ViewGraph, root: Name, s: Spec, k: nat, stack: seq<Spec>, seen: Seen,
      r: Result<(seq<Name>, Seen), Error>)
    requires s.name in g && k <= |g[s.name].sourceViews|
  {
    match r
    case Err(_) => Unbuildable(g, root)
    case Ok((views, seen')) =>
      && views == g[s.name].sourceViews[..k] && Built(g, seen', stack + [s], root) && Grows(seen, seen')
      && forall i :: 0 <= i < k ==> Done(seen', g[s.name].sourceViews[i])
  }

  lemma ViewAlreadyDone(g: ViewGraph, root: Name, s: Spec, stack: seq<Spec>, meta: Meta, seen: Seen)
    requires IsUnfolding(g, s.name, s) && StackOk(g, stack, s) && Built(g, seen, stack, root) && s.name in seen
    ensures BuildsView(g, root, s, stack, seen, FromSpec(s, meta, seen))
  {
    NotInProgress(g, s.name, s, stack);
    assert Done(seen, s.name);
    assert GoodEntry(g, seen, root, s.name);
    hide IsUnfolding, Rebuilt, Constructible, Reachable, Built, FromSpecs, Rebuild;
    assert FromSpec(s, meta, seen) == Ok((seen[s.name].value, seen));
    RebuiltKeepsName(g, s.name, s.name == root);
  }

  lemma RebuiltKeepsName(g: ViewGraph, n: Name, isRoot: bool)
    requires n in g && Constructible(g[n])
    ensures Rebuilt(g[n], isRoot).name == n
  {
  }

  lemma FromSpecsSnoc(specs: seq<Spec>, k: nat, seen: Seen)
    requires k < |specs|
    ensures FromSpecs(specs[..k + 1], seen) ==
      match FromSpecs(specs[..k], seen)
      case Err(e) => Err(e)
      case Ok((views, seen')) => AddSource(views, FromSpec(specs[k], NO_META, seen'))
  {
    assert specs[..k + 1][..k] == specs[..k];
  }

  lemma RefusalIsUnbuildable(g: ViewGraph, root: Name, n: Name)
    requires n in g && Reachable(g, root, n)
    ensures !Constructible(g[n]) ==> Unbuildable(g, root)
  {
    hide Constructible, Reachable;
  }

  /** After its sources, the view itself: built if it is constructible, an error if not. */
  lemma FinishView(g: ViewGraph, root: Name, s: Spec, stack: seq<Spec>, seen: Seen, sources: Result<(seq<Name>, Seen),
      Error>)
    requires IsUnfolding(g, s.name, s) && StackOk(g, stack, s) && RootIs(stack, s, root) && Reachable(g, root, s.name)
    requires BuildsSources(g, root, s, |g[s.name].sourceViews|, stack, seen, sources)
    ensures BuildsView(g, root, s, stack, seen, FinishSpec(s, if stack == [] then ToMeta(g[s.name]) else NO_META,
        sources))
  {
    var views := g[s.name].sourceViews;
    assert views[..|views|] == views;
    OnlyOutermostIsRoot(g, s, stack, root);
    RebuildIsRebuilt(g, s.name, s, s.name == root);
    RefusalIsUnbuildable(g, root, s.name);
    hide IsUnfolding, StackOk, RootIs, Rebuilt, Rebuild, Built, ToMeta, Constructible, Reachable, Unbuildable;
    if sources.Ok? && Constructible(g[s.name]) {
      FinishBuilding(g, sources.value.1, stack, root, s);
      RebuiltKeepsName(g, s.name, s.name == root);
    }
  }

  /** One more source view, built after the earlier ones. */
  lemma NextSource(g: ViewGraph, root: Name, s: Spec, k: nat, stack: seq<Spec>, seen: Seen, seen': Seen,
      source: Result<(View, Seen), Error>)
    requires s.name in g && k < |g[s.name].sourceViews| && k < |s.sourceViews|
    requires BuildsSources(g, root, s, k, stack, seen, Ok((g[s.name].sourceViews[..k], seen')))
    requires s.sourceViews[k].name == g[s.name].sourceViews[k]
    requires BuildsView(g, root, s.sourceViews[k], stack + [s], seen', source)
    ensures BuildsSources(g, root, s, k + 1, stack, seen, AddSource(g[s.name].sourceViews[..k], source))
  {
    hide Built, Unbuildable;
    var views := g[s.name].sourceViews;
    assert views[..k + 1] == views[..k] + [views[k]];
  }

  lemma {:induction false} BuildView(g: ViewGraph, root: Name, s: Spec, stack: seq<Spec>, seen: Seen)
    requires IsUnfolding(g, s.name, s) && StackOk(g, stack, s) && Built(g, seen, stack, root)
    requires RootIs(stack, s, root) && Reachable(g, root, s.name)
    ensures BuildsView(g, root, s, stack, seen, FromSpec(s, if stack == [] then ToMeta(g[s.name]) else NO_META, seen))
    decreases s, 1
  {
    var n := s.name;
    var meta := if stack == [] then ToMeta(g[n]) else NO_META;
    if n in seen {
      ViewAlreadyDone(g, root, s, stack, meta, seen);
    } else {
      var sources := FromSpecs(s.sourceViews, seen[n := None]);
      assert FromSpec(s, meta, seen) == FinishSpec(s, meta, sources);
      assert |s.sourceViews| == |g[n].sourceViews| && s.sourceViews[..|s.sourceViews|] == s.sourceViews;
      hide IsUnfolding, StackOk, Built, Reachable, FromSpec, FromSpecs, FinishSpec, BuildsSources;
      StartBuilding(g, seen, stack, root, s);
      BuildSources(g, root, s, |s.sourceViews|, stack, seen[n := None]);
      FinishView(g, root, s, stack, seen[n := None], sources);
    }
  }

  lemma {:induction false} BuildSources(g: ViewGraph, root: Name, s: Spec, k: nat, stack: seq<Spec>, seen: Seen)
    requires IsUnfolding(g, s.name, s) && StackOk(g, stack, s) && k <= |s.sourceViews|
    requires RootIs(stack, s, root) && Reachable(g, root, s.name) && Built(g, seen, stack + [s], root)
    ensures BuildsSources(g, root, s, k, stack, seen, FromSpecs(s.sourceViews[..k], seen))
    decreases s, 0, k
  {
    if k > 0 {
      var child := s.sourceViews[k - 1];
      FromSpecsSnoc(s.sourceViews, k - 1, seen);
      var before := FromSpecs(s.sourceViews[..k - 1], seen);
      ChildOk(g, root, s, stack, k - 1);
      assert |s.sourceViews| == |g[s.name].sourceViews|;
      BuildSources(g, root, s, k - 1, stack, seen);
      if before.Ok? {
        var seen' := before.value.1;
        hide IsUnfolding, StackOk, Built, Reachable, FromSpec, FromSpecs, RootIs, AddSource;
        BuildView(g, root, child, stack + [s], seen');
        NextSource(g, root, s, k - 1, stack, seen, seen', FromSpec(child, NO_META, seen'));
      }
    }
  }

  lemma ChildOk(g: ViewGraph, root: Name, s: Spec, stack: seq<Spec>, i: nat)
    requires IsUnfolding(g, s.name, s) && StackOk(g, stack, s) && RootIs(stack, s, root) && Reachable(g, root, s.name)
    requires i < |s.sourceViews|
    ensures var child := s.sourceViews[i];
      && child < s && child.name == g[s.name].sourceViews[i] && IsUnfolding(g, child.name, child)
      && StackOk(g, stack + [s], child) && RootIs(stack + [s], child, root) && Reachable(g, root, child.name)
  {
    var child := s.sourceViews[i];
    assert IsUnfolding(g, g[s.name].sourceViews[i], child);
    assert child < s;
    ReachableSource(g, root, s.name, i);
    forall k | 0 <= k < |stack + [s]|
      ensures var t := (stack + [s])[k]; IsUnfolding(g, t.name, t) && child < t
    {
      assert k < |stack| ==> (stack + [s])[k] == stack[k];
    }
  }

  // ---------- The round trip ----------

  lemma ReachableSelf(g: ViewGraph, n: Name)
    requires n in g
    ensures Reachable(g, n, n)
  {
    assert Walk(g, [n]) && [n][0] == n;
  }

  /** Finished views are closed under source views, so they cover all that is reachable. */
  lemma {:induction false} ReachableIsDone(g: ViewGraph, seen: Seen, root: Name, p: seq<Name>)
    requires Built(g, seen, [], root) && Done(seen, root) && Walk(g, p) && p[0] == root
    ensures Done(seen, p[|p| - 1])
    decreases |p|
  {
    if |p| > 1 {
      var q, m := p[..|p| - 1], p[|p| - 2];
      assert Walk(g, q) by {
        forall i | 0 <= i < |q| - 1
          ensures Edge(g, q[i], q[i + 1])
        {
          assert Edge(g, p[i], p[i + 1]);
        }
      }
      ReachableIsDone(g, seen, root, q);
      assert Edge(g, p[|p| - 2], p[|p| - 2 + 1]) && Done(seen, m) && GoodEntry(g, seen, root, m);
    }
  }

  /** Deserialising the proto of an acyclic view succeeds exactly when the constructor
      accepts every reachable view, and then rebuilds exactly the reachable views. */
  lemma RoundTrip(g: ViewGraph, n: Name, proto: Proto)
    requires IsProto(g, n, proto)
    ensures match FromSpec(proto.spec, proto.meta, map[])
      case Err(_) => Unbuildable(g, n)
      case Ok((v, views)) =>
        && !Unbuildable(g, n)
        && (forall m :: m in views <==> Reachable(g, n, m))
        && (forall m :: m in views ==> m in g && Constructible(g[m]) && views[m] == Some(Rebuilt(g[m], m == n)))
        && views[n] == Some(v)
  {
    ReachableSelf(g, n);
    assert Built(g, map[], [], n);
    BuildView(g, n, proto.spec, [], map[]);
    var r := FromSpec(proto.spec, proto.meta, map[]);
    if r.Ok? {
      var views := r.value.1;
      forall m | Reachable(g, n, m)
        ensures Done(views, m) && GoodEntry(g, views, n, m)
      {
        var p :| Walk(g, p) && p[0] == n && p[|p| - 1] == m;
        ReachableIsDone(g, views, n, p);
      }
      forall m | m in views
        ensures Reachable(g, n, m)
      {
      }
    }
  }

  lemma UnbuildableIff(g: ViewGraph, n: Name)
    ensures Unbuildable(g, n) <==> exists m :: Reachable(g, n, m) && m in g && Refused(g[m])
  {
    forall v: View
      ensures Refused(v) <==> !Constructible(v)
    {
      RefusedIff(v);
    }
    hide Refused, Constructible, Reachable;
  }

  /** `from_proto(to_proto(v))` raises exactly when a cycle or a view the constructor
      refuses can be reached. Otherwise it brings back the reachable views, each with
      all its fields but for the stated losses exactly when its batch source is plain. */
  method SerialiseAndBack(g: ViewGraph, n: Name) returns (r: Result<View, Error>, views: Seen)
    requires n in g
    ensures r.Err? <==> CycleReachable(g, n) || exists m :: Reachable(g, n, m) && m in g && Refused(g[m])
    ensures r.Ok? ==> forall m :: m in views <==> Reachable(g, n, m)
    ensures r.Ok? ==> forall m :: m in views ==>
      m in g && (views[m] == Some(Normalised(g[m], m == n)) <==> PlainSource(g[m]))
    ensures r.Ok? ==> forall m :: m in views ==>
      m in g && views[m].Some? && ComesBackAs(g[m], views[m].value, m == n)
    ensures r.Ok? ==> n in views && views[n] == Some(r.value)
  {
    UnbuildableIff(g, n);
    hide Refused, ComesBackAs, Unbuildable;
    var proto := ToProto(g, n);
    views := map[];
    if proto.Err? { return Err(proto.error), views; }
    ReachableSelf(g, n);
    RoundTrip(g, n, proto.value);
    r, views := FromProto(proto.value);
    if r.Ok? {
      forall m | m in views
        ensures m in g && (views[m] == Some(Normalised(g[m], m == n)) <==> PlainSource(g[m]))
        ensures views[m].Some? && ComesBackAs(g[m], views[m].value, m == n)
      {
        RebuiltIsNormalised(g[m], m == n);
        RebuiltComesBack(g[m], m == n);
      }
    }
  }
}
