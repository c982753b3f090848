/** Option and Result, shared by the modules below. */
module Outcomes {
  datatype Option<+T> = None | Some(value: T)

  datatype Result<+T, +E> = Ok(value: T) | Err(error: E)
}

/** Feature views as a graph: a view refers to its source views by name. */
module FeatureViews {
  import opened Outcomes

  type Name = string

  datatype SourceKind = BatchKind | PushKind | KafkaKind | KinesisKind

  /** A data source is opaque but for its kind and the batch source it may carry. */
  datatype DataSource = DataSource(token: string, kind: SourceKind, batchSource: Option<DataSource>)

  datatype Field = Field(name: string, dtype: string)

  datatype View = View(
    name: Name,
    entities: seq<string>,
    ttl: Option<int>,
    batchSource: Option<DataSource>,
    streamSource: Option<DataSource>,
    sourceViews: seq<Name>,
    entityColumns: seq<Field>,
    features: seq<Field>,
    online: bool,
    offline: bool,
    description: string,
    tags: map<string, string>,
    owner: string,
    mode: Option<string>,
    enableValidation: bool,
    created: Option<int>,
    lastUpdated: Option<int>,
    intervals: seq<(int, int)>)

  /** Names are unique and every source view is there; cycles are not excluded. */
  type ViewGraph = g: map<Name, View> |
    && (forall n :: n in g ==> g[n].name == n)
    && (forall n, i :: n in g && 0 <= i < |g[n].sourceViews| ==> g[n].sourceViews[i] in g)
    witness map[]

  ghost predicate Edge(g: ViewGraph, a: Name, b: Name) {
    a in g && exists i :: 0 <= i < |g[a].sourceViews| && g[a].sourceViews[i] == b
  }

  ghost predicate Walk(g: ViewGraph, p: seq<Name>) {
    p != [] && p[0] in g && forall i :: 0 <= i < |p| - 1 ==> Edge(g, p[i], p[i + 1])
  }

  ghost predicate Reachable(g: ViewGraph, a: Name, b: Name) {
    exists p :: Walk(g, p) && p[0] == a && p[|p| - 1] == b
  }

  /** A walk from `n` whose last node is one it has been at before. */
  ghost predicate Lasso(g: ViewGraph, n: Name, p: seq<Name>, i: int) {
    Walk(g, p) && p[0] == n && 0 <= i < |p| - 1 && p[i] == p[|p| - 1]
  }

  ghost predicate CycleReachable(g: ViewGraph, n: Name) {
    exists p, i :: Lasso(g, n, p, i)
  }

  lemma WalkSnoc(g: ViewGraph, p: seq<Name>, b: Name)
    requires Walk(g, p) && Edge(g, p[|p| - 1], b)
    ensures Walk(g, p + [b])
  {
    var q := p + [b];
    forall i | 0 <= i < |q| - 1
      ensures Edge(g, q[i], q[i + 1])
    {
      if i < |p| - 1 { assert q[i] == p[i] && q[i + 1] == p[i + 1]; }
    }
  }

  lemma {:induction false} WalkStaysInGraph(g: ViewGraph, p: seq<Name>, i: nat)
    requires Walk(g, p) && i < |p|
    ensures p[i] in g
  {
    if i > 0 { assert Edge(g, p[i - 1], p[i]); }
  }
}

/** `FeatureView.to_proto` and `from_proto`: the memoised walks of the view graph. */
module FeatureViewSerialisation {
  import opened Outcomes
  import opened FeatureViews

  datatype Spec = Spec(
    name: Name,
    entities: seq<string>,
    entityColumns: seq<Field>,
    features: seq<Field>,
    description: string,
    tags: map<string, string>,
    owner: string,
    ttl: Option<int>,
    online: bool,
    offline: bool,
    batchSource: Option<DataSource>,
    streamSource: Option<DataSource>,
    sourceViews: seq<Spec>,
    mode: string,
    enableValidation: bool)

  datatype Meta = Meta(created: Option<int>, lastUpdated: Option<int>, intervals: seq<(int, int)>)

  datatype Proto = Proto(spec: Spec, meta: Meta)

  datatype Error = Cycle(name: Name) | BadSource | NoBatchSource | NoSinkSource

  const NO_META := Meta(None, None, [])

  // ---------- Serialisation ----------

  function ModeToString(mode: Option<string>): string {
    if mode.None? then "" else mode.value
  }

  function ToSpec(v: View, sourceViews: seq<Spec>): Spec {
    Spec(v.name, v.entities, v.entityColumns, v.features, v.description, v.tags, v.owner, v.ttl, v.online, v.offline,
         v.batchSource, v.streamSource, sourceViews, ModeToString(v.mode), v.enableValidation)
  }

  function ToMeta(v: View): Meta {
    Meta(v.created, v.lastUpdated, v.intervals)
  }

  /** The spec has the view's fields, one by one; only a missing mode is written as an empty one. */
  predicate SameFields(v: View, s: Spec) {
    && s.name == v.name && s.entities == v.entities && s.entityColumns == v.entityColumns && s.features == v.features
    && s.description == v.description && s.tags == v.tags && s.owner == v.owner && s.ttl == v.ttl
    && s.online == v.online && s.offline == v.offline
    && s.batchSource == v.batchSource && s.streamSource == v.streamSource
    && (v.mode.None? ==> s.mode == "") && (v.mode.Some? ==> v.mode == Some(s.mode))
    && s.enableValidation == v.enableValidation
  }

  predicate SameMeta(v: View, m: Meta) {
    m.created == v.created && m.lastUpdated == v.lastUpdated && m.intervals == v.intervals
  }

  /** `s` is the naive recursive unfolding of the view named `n`: its own fields, and
      below it the unfolding of each source view, with no memo. */
  ghost predicate IsUnfolding(g: ViewGraph, n: Name, s: Spec)
    decreases s
  {
    && n in g
    && SameFields(g[n], s)
    && |s.sourceViews| == |g[n].sourceViews|
    && forall i :: 0 <= i < |s.sourceViews| ==> IsUnfolding(g, g[n].sourceViews[i], s.sourceViews[i])
  }

  lemma {:induction false} UnfoldingUnique(g: ViewGraph, n: Name, s: Spec, s': Spec)
    requires IsUnfolding(g, n, s) && IsUnfolding(g, n, s')
    ensures s == s'
    decreases s
  {
    forall i | 0 <= i < |s.sourceViews|
      ensures s.sourceViews[i] == s'.sourceViews[i]
    {
      UnfoldingUnique(g, g[n].sourceViews[i], s.sourceViews[i], s'.sourceViews[i]);
    }
    assert s.sourceViews == s'.sourceViews;
  }

  /** Along a walk the unfoldings get strictly smaller. */
  lemma {:induction false} UnfoldingShrinks(g: ViewGraph, p: seq<Name>, s: Spec) returns (s': Spec)
    requires Walk(g, p) && IsUnfolding(g, p[0], s)
    ensures IsUnfolding(g, p[|p| - 1], s') && (|p| > 1 ==> s' < s) && (|p| == 1 ==> s' == s)
    decreases |p|
  {
    if |p| == 1 {
      s' := s;
    } else {
      assert Edge(g, p[0], p[1]);
      var i :| 0 <= i < |g[p[0]].sourceViews| && g[p[0]].sourceViews[i] == p[1];
      var child := s.sourceViews[i];
      assert IsUnfolding(g, p[1], child) && child < s;
      assert Walk(g, p[1..]) by {
        forall j | 0 <= j < |p[1..]| - 1
          ensures Edge(g, p[1..][j], p[1..][j + 1])
        {
          assert Edge(g, p[j + 1], p[j + 2]);
        }
      }
      s' := UnfoldingShrinks(g, p[1..], child);
    }
  }

  /** A view from which a cycle can be reached has no unfolding. */
  lemma UnfoldingExcludesCycles(g: ViewGraph, n: Name, s: Spec)
    requires IsUnfolding(g, n, s)
    ensures !CycleReachable(g, n)
  {
    if p, i :| Lasso(g, n, p, i) {
      var before, loop := p[..i + 1], p[i..];
      assert Walk(g, before);
      assert Walk(g, loop) by {
        forall j | 0 <= j < |loop| - 1
          ensures Edge(g, loop[j], loop[j + 1])
        {
          assert Edge(g, p[i + j], p[i + j + 1]);
        }
        WalkStaysInGraph(g, p, i);
      }
      var at := UnfoldingShrinks(g, before, s);
      var again := UnfoldingShrinks(g, loop, at);
      UnfoldingUnique(g, p[i], at, again);
      assert false;
    }
  }

  /** The `seen` dict of one serialisation: None marks a view in progress. */
  class SeenProtos {
    var entries: map<Name, Option<Proto>>

    constructor ()
      ensures entries == map[]
    {
      entries := map[];
    }
  }

  /** In progress are exactly the views on the call stack; done ones hold their unfolding. */
  ghost predicate SeenOk(g: ViewGraph, entries: map<Name, Option<Proto>>, stack: seq<Name>) {
    && entries.Keys <= g.Keys
    && (forall m :: m in stack <==> m in entries && entries[m].None?)
    && (forall m :: m in entries && entries[m].Some? ==> IsProto(g, m, entries[m].value))
  }

  ghost predicate IsProto(g: ViewGraph, n: Name, proto: Proto) {
    IsUnfolding(g, n, proto.spec) && SameMeta(g[n], proto.meta)
  }

  lemma MarkInProgress(g: ViewGraph, entries: map<Name, Option<Proto>>, stack: seq<Name>, n: Name)
    requires SeenOk(g, entries, stack) && n in g && n !in entries
    ensures SeenOk(g, entries[n := None], stack + [n])
  {
  }

  lemma MarkDone(g: ViewGraph, entries: map<Name, Option<Proto>>, stack: seq<Name>, n: Name, proto: Proto)
    requires SeenOk(g, entries, stack + [n]) && n !in stack && IsProto(g, n, proto)
    ensures SeenOk(g, entries[n := Some(proto)], stack)
  {
    assert n in stack + [n];
    assert forall m :: m in stack + [n] <==> m in stack || m == n;
  }

  /** Meeting a view that is in progress closes a lasso: the call stack, then that view again. */
  lemma InProgressMeansCycle(g: ViewGraph, entries: map<Name, Option<Proto>>, stack: seq<Name>, n: Name)
    requires SeenOk(g, entries, stack) && Walk(g, stack + [n])
    requires n in entries && entries[n].None?
    ensures CycleReachable(g, (stack + [n])[0])
  {
    var i :| 0 <= i < |stack| && stack[i] == n;
    assert Lasso(g, (stack + [n])[0], stack + [n], i);
  }

  /** `_to_proto_internal`; `stack` is the call stack above this call. */
  method ToProtoInternal(g: ViewGraph, n: Name, seen: SeenProtos, ghost stack: seq<Name>)
      returns (r: Result<Proto, Error>)
    requires n in g && Walk(g, stack + [n]) && SeenOk(g, seen.entries, stack)
    modifies seen
    ensures r.Ok? ==> IsProto(g, n, r.value) && SeenOk(g, seen.entries, stack)
    ensures r.Ok? ==> old(seen.entries).Keys <= seen.entries.Keys
    ensures r.Err? ==> CycleReachable(g, (stack + [n])[0])
    decreases |g.Keys - seen.entries.Keys|, 1
  {
    if n in seen.entries {
      if seen.entries[n].None? {
        InProgressMeansCycle(g, seen.entries, stack, n);
        return Err(Cycle(n));
      }
      return Ok(seen.entries[n].value);
    }
    MarkInProgress(g, seen.entries, stack, n);
    SmallerUnseen(g.Keys, seen.entries.Keys, seen.entries.Keys + {n}, n);
    assert n !in stack;
    hide IsUnfolding, SeenOk, Walk, CycleReachable;
    seen.entries := seen.entries[n := None];
    var specs := SourceSpecs(g, n, seen, stack);
    if specs.Err? { return Err(specs.error); }
    var proto := Proto(ToSpec(g[n], specs.value), ToMeta(g[n]));
    MarkDone(g, seen.entries, stack, n, proto);
    seen.entries := seen.entries[n := Some(proto)];
    return Ok(proto);
  }

  /** The loop of `to_proto_spec` over the source views of `n`. */
  method SourceSpecs(g: ViewGraph, n: Name, seen: SeenProtos, ghost stack: seq<Name>)
      returns (r: Result<seq<Spec>, Error>)
    requires n in g && Walk(g, stack + [n]) && SeenOk(g, seen.entries, stack + [n])
    modifies seen
    ensures r.Ok? ==> IsUnfolding(g, n, ToSpec(g[n], r.value)) && SeenOk(g, seen.entries, stack + [n])
    ensures r.Ok? ==> old(seen.entries).Keys <= seen.entries.Keys
    ensures r.Err? ==> CycleReachable(g, (stack + [n])[0])
    decreases |g.Keys - seen.entries.Keys|, 2
  {
    var views := g[n].sourceViews;
    var specs: seq<Spec> := [];
    var i := 0;
    assert AreUnfoldings(g, views[..0], specs);
    hide SeenOk, Walk, CycleReachable, IsUnfolding, AreUnfoldings, ToSpec;
    while i < |views|
      invariant 0 <= i <= |views| && |specs| == i
      invariant SeenOk(g, seen.entries, stack + [n]) && old(seen.entries).Keys <= seen.entries.Keys
      invariant AreUnfoldings(g, views[..i], specs)
    {
      WalkToSource(g, stack, n, i);
      SubsetSize(g.Keys - seen.entries.Keys, g.Keys - old(seen.entries).Keys);
      var source := ToProtoInternal(g, views[i], seen, stack + [n]);
      if source.Err? { return Err(source.error); }
      UnfoldingsSnoc(g, views, i, specs, source.value.spec);
      specs := specs + [source.value.spec];
      i := i + 1;
    }
    assert views[..i] == views;
    UnfoldingOfSources(g, n, specs);
    return Ok(specs);
  }

  ghost predicate AreUnfoldings(g: ViewGraph, names: seq<Name>, specs: seq<Spec>) {
    |specs| == |names| && forall j :: 0 <= j < |names| ==> IsUnfolding(g, names[j], specs[j])
  }

  lemma UnfoldingsSnoc(g: ViewGraph, names: seq<Name>, i: nat, specs: seq<Spec>, s: Spec)
    requires i < |names| && AreUnfoldings(g, names[..i], specs) && IsUnfolding(g, names[i], s)
    ensures AreUnfoldings(g, names[..i + 1], specs + [s])
  {
    hide IsUnfolding;
    var names', specs' := names[..i + 1], specs + [s];
    forall j | 0 <= j < |names'|
      ensures IsUnfolding(g, names'[j], specs'[j])
    {
      if j < i { assert names'[j] == names[..i][j] && specs'[j] == specs[j]; }
    }
  }

  lemma UnfoldingOfSources(g: ViewGraph, n: Name, specs: seq<Spec>)
    requires n in g && AreUnfoldings(g, g[n].sourceViews, specs)
    ensures IsUnfolding(g, n, ToSpec(g[n], specs))
  {
  }

  lemma WalkToSource(g: ViewGraph, stack: seq<Name>, n: Name, i: nat)
    requires n in g && i < |g[n].sourceViews| && Walk(g, stack + [n])
    ensures g[n].sourceViews[i] in g
    ensures Walk(g, stack + [n] + [g[n].sourceViews[i]])
    ensures (stack + [n] + [g[n].sourceViews[i]])[0] == (stack + [n])[0]
  {
    assert Edge(g, n, g[n].sourceViews[i]);
    WalkSnoc(g, stack + [n], g[n].sourceViews[i]);
  }

  lemma SmallerUnseen(all: set<Name>, before: set<Name>, now: set<Name>, n: Name)
    requires n in all && n !in before && before + {n} <= now
    ensures |all - now| < |all - before|
  {
    assert all - now <= (all - before) - {n};
    SubsetSize(all - now, (all - before) - {n});
  }

  lemma {:induction false} SubsetSize(a: set<Name>, b: set<Name>)
    requires a <= b
    ensures |a| <= |b|
    decreases a
  {
    if a != {} {
      var x :| x in a;
      SubsetSize(a - {x}, b - {x});
    }
  }

  /** `to_proto`: it raises if and only if a cycle can be reached, and otherwise the
      memo makes no difference: the result is the naive unfolding. */
  method ToProto(g: ViewGraph, n: Name) returns (r: Result<Proto, Error>)
    requires n in g
    ensures r.Err? <==> CycleReachable(g, n)
    ensures r.Ok? ==> IsProto(g, n, r.value)
  {
    var seen := new SeenProtos();
    r := ToProtoInternal(g, n, seen, []);
    if r.Ok? { UnfoldingExcludesCycles(g, n, r.value.spec); }
  }

  // ---------- Deserialisation ----------

  const DUMMY_ENTITY_NAME := "__dummy"

  datatype SourceArg = FromSource(source: DataSource) | FromViews(views: seq<Name>) | NoSource

  predicate IsStream(d: DataSource) {
    d.kind.PushKind? || d.kind.KafkaKind? || d.kind.KinesisKind?
  }

  /** The source normalisation of `__init__`: a stream source brings its own batch
      source, a derived view needs a sink. */
  function Normalise(source: SourceArg, sink: Option<DataSource>)
    : Result<(Option<DataSource>, Option<DataSource>, seq<Name>), Error>
  {
    match source
    case NoSource => Err(BadSource)
    case FromSource(d) =>
      if !IsStream(d) then Ok((Some(d), None, []))
      else if d.batchSource.None? then Err(NoBatchSource)
      else Ok((d.batchSource, Some(d), []))
    case FromViews(views) => if sink.None? then Err(NoSinkSource) else Ok((sink, None, views))
  }

  function NewView(name: Name, batch: Option<DataSource>, stream: Option<DataSource>, views: seq<Name>, ttl: int,
                   online: bool, offline: bool, description: string, tags: map<string, string>, owner: string,
                   mode: Option<string>): View {
    View(name, [DUMMY_ENTITY_NAME], Some(ttl), batch, stream, views, [], [], online, offline, description, tags,
         owner, mode, false, None, None, [])
  }

  /** The constructor call of `_from_proto_internal`, then its field assignments. */
  function Rebuild(s: Spec, meta: Meta, views: seq<Name>): Result<View, Error> {
    var source := if views != [] then FromViews(views) else if s.batchSource.Some?
        then FromSource(s.batchSource.value) else NoSource;
    var ttl := if s.ttl.None? then 0 else s.ttl.value;
    match Normalise(source, if views != [] then s.batchSource else None)
    case Err(e) => Err(e)
    case Ok((batch, stream, sources)) =>
      var v := NewView(s.name, batch, stream, sources, ttl, s.online, s.offline, s.description, s.tags, s.owner,
                       if s.mode != "" then Some(s.mode) else None);
      Ok(v.(streamSource := if s.streamSource.Some? then s.streamSource else v.streamSource,
            entities := s.entities, features := s.features, entityColumns := s.entityColumns,
            enableValidation := s.enableValidation,
            created := if meta.created.Some? then meta.created else v.created,
            lastUpdated := if meta.lastUpdated.Some? then meta.lastUpdated else v.lastUpdated,
            intervals := v.intervals + meta.intervals))
  }

  type Seen = map<Name, Option<View>>

  /** `_from_proto_internal`, with the `seen` dict as a value. */
  function FromSpec(s: Spec, meta: Meta, seen: Seen): Result<(View, Seen), Error>
    decreases s, 1
  {
    if s.name in seen then
      if seen[s.name].None? then Err(Cycle(s.name)) else Ok((seen[s.name].value, seen))
    else
      FinishSpec(s, meta, FromSpecs(s.sourceViews, seen[s.name := None]))
  }

  function FinishSpec(s: Spec, meta: Meta, sources: Result<(seq<Name>, Seen), Error>): Result<(View, Seen), Error> {
    match sources
    case Err(e) => Err(e)
    case Ok((views, seen)) =>
      match Rebuild(s, meta, views)
      case Err(e) => Err(e)
      case Ok(v) => Ok((v, seen[s.name := Some(v)]))
  }

  function FromSpecs(specs: seq<Spec>, seen: Seen): Result<(seq<Name>, Seen), Error>
    decreases specs, 0
  {
    if specs == [] then Ok(([], seen))
    else
      var n := |specs| - 1;
      match FromSpecs(specs[..n], seen)
      case Err(e) => Err(e)
      case Ok((views, seen')) => AddSource(views, FromSpec(specs[n], NO_META, seen'))
  }

  function AddSource(views: seq<Name>, source: Result<(View, Seen), Error>): Result<(seq<Name>, Seen), Error> {
    match source
    case Err(e) => Err(e)
    case Ok((v, seen)) => Ok((views + [v.name], seen))
  }

  class SeenViews {
    var entries: Seen

    constructor ()
      ensures entries == map[]
    {
      entries := map[];
    }
  }

  method FromProtoInternal(proto: Proto, seen: SeenViews) returns (r: Result<View, Error>)
    modifies seen
    ensures match FromSpec(proto.spec, proto.meta, old(seen.entries))
      case Err(e) => r == Err(e)
      case Ok((v, entries)) => r == Ok(v) && seen.entries == entries
    decreases proto.spec, 1
  {
    var s := proto.spec;
    if s.name in seen.entries {
      if seen.entries[s.name].None? { return Err(Cycle(s.name)); }
      return Ok(seen.entries[s.name].value);
    }
    seen.entries := seen.entries[s.name := None];
    var views := SourceViews(s.sourceViews, seen);
    if views.Err? { return Err(views.error); }
    r := Rebuild(s, proto.meta, views.value);
    if r.Ok? { seen.entries := seen.entries[s.name := Some(r.value)]; }
  }

  method SourceViews(specs: seq<Spec>, seen: SeenViews) returns (r: Result<seq<Name>, Error>)
    modifies seen
    ensures match FromSpecs(specs, old(seen.entries))
      case Err(e) => r == Err(e)
      case Ok((views, entries)) => r == Ok(views) && seen.entries == entries
    decreases specs, 0
  {
    var views: seq<Name> := [];
    var i := 0;
    while i < |specs|
      invariant 0 <= i <= |specs|
      invariant FromSpecs(specs[..i], old(seen.entries)) == Ok((views, seen.entries))
    {
      assert specs[..i + 1][..i] == specs[..i] && specs[i] in specs;
      var v := FromProtoInternal(Proto(specs[i], NO_META), seen);
      if v.Err? {
        FromSpecsFails(specs, i + 1, old(seen.entries));
        return Err(v.error);
      }
      views := views + [v.value.name];
      i := i + 1;
    }
    assert specs[..i] == specs;
    return Ok(views);
  }

  lemma {:induction false} FromSpecsFails(specs: seq<Spec>, i: nat, seen: Seen)
    requires i <= |specs| && FromSpecs(specs[..i], seen).Err?
    ensures FromSpecs(specs, seen) == FromSpecs(specs[..i], seen)
    decreases |specs|
  {
    if i < |specs| {
      assert specs[..|specs| - 1][..i] == specs[..i];
      FromSpecsFails(specs[..|specs| - 1], i, seen);
    } else {
      assert specs[..i] == specs;
    }
  }

  /** `from_proto`; `views` are the views built on the way, by name. */
  method FromProto(proto: Proto) returns (r: Result<View, Error>, views: Seen)
    ensures match FromSpec(proto.spec, proto.meta, map[])
      case Err(e) => r == Err(e)
      case Ok((v, entries)) => r == Ok(v) && views == entries
  {
    var seen := new SeenViews();
    r := FromProtoInternal(proto, seen);
    views := seen.entries;
  }
}
