/** The admission webhook: the JSON patches it answers with, and what they do. */
module AdmissionWebhook {
  import opened Outcomes
  import opened SlashPaths
  import opened JsonPatch

  // ---------- JSON as the handlers see it ----------

  /** Python truth of a decoded JSON value. */
  predicate Truthy(j: Json) {
    match j
    case Null => false
    case Bool(b) => b
    case Num(n) => n != 0
    case Str(s) => s != []
    case Arr(items) => items != []
    case Obj(fields) => fields != map[]
  }

  /** `d.get(key, default)` of an object's fields. */
  function Get(fields: map<string, Json>, key: string, default: Json): Json {
    if key in fields then fields[key] else default
  }

  const EMPTY: Json := Obj(map[])

  /** A member that is itself an object, or absent: what a chained `.get` needs. */
  predicate ObjectOrAbsent(fields: map<string, Json>, key: string) {
    Get(fields, key, EMPTY).Obj?
  }

  // ---------- The lineage patch ----------

  datatype Config = Config(image: string, lineageUrl: string)

  function EnvValue(name: string, value: Json): Json {
    Obj(map["name" := Str(name), "value" := value])
  }

  function EnvField(name: string, path: string): Json {
    Obj(map["name" := Str(name), "valueFrom" := Obj(map["fieldRef" := Obj(map["fieldPath" := Str(path)])])])
  }

  function InitContainer(cfg: Config, namespace: Json, jobName: Json): Json {
    Obj(map[
      "name" := Str("lineage-registration"),
      "image" := Str(cfg.image),
      "imagePullPolicy" := Str("Always"),
      "env" := Arr([
        EnvValue("OPENLINEAGE_NAMESPACE", namespace),
        EnvValue("OPENLINEAGE_URL", Str(cfg.lineageUrl)),
        EnvField("POD_NAMESPACE", "metadata.namespace"),
        EnvField("POD_NAME", "metadata.name"),
        EnvValue("OWNER_NAME", jobName)]),
      "volumeMounts" := Arr([
        Obj(map["name" := Str("podinfo"), "mountPath" := Str("/etc/podinfo/annotations"), "readOnly" := Bool(true)])])])
  }

  function DownwardVolume(): Json {
    Obj(map[
      "name" := Str("podinfo"),
      "downwardAPI" := Obj(map[
        "items" := Arr([
          Obj(map[
            "path" := Str("annotations"),
            "fieldRef" := Obj(map["fieldPath" := Str("metadata.annotations")])])])])])
  }

  /** The app label of the pod, or its name. */
  function JobName(metadata: map<string, Json>): Json
    requires ObjectOrAbsent(metadata, "labels")
  {
    var labels := Get(metadata, "labels", EMPTY).fields;
    if Truthy(Get(labels, "app.kubernetes.io/name", Null)) then labels["app.kubernetes.io/name"]
    else if Truthy(Get(labels, "app", Null)) then labels["app"]
    else Get(metadata, "name", Str("unknown"))
  }

  /** The pods the chained lookups of `create_lineage_patch` get through. */
  predicate WellShapedPod(pod: Json) {
    && pod.Obj? && ObjectOrAbsent(pod.fields, "metadata") && ObjectOrAbsent(pod.fields, "spec")
    && ObjectOrAbsent(Get(pod.fields, "metadata", EMPTY).fields, "labels")
  }

  function PodContainer(cfg: Config, pod: Json): Json
    requires WellShapedPod(pod)
  {
    var metadata := Get(pod.fields, "metadata", EMPTY).fields;
    InitContainer(cfg, Get(metadata, "namespace", Str("default")), JobName(metadata))
  }

  /** What a list member of the spec becomes when `value` is appended to it. */
  function Appended(spec: map<string, Json>, key: string, value: Json): Json {
    Arr((if key in spec && spec[key].Arr? then spec[key].items else []) + [value])
  }

  /** The pod with one more init container and one more volume, and nothing else changed. */
  function Injected(pod: Json, container: Json, volume: Json): Json
    requires pod.Obj? && "spec" in pod.fields && pod.fields["spec"].Obj?
  {
    var spec := pod.fields["spec"].fields;
    Obj(pod.fields["spec" := Obj(spec["initContainers" := Appended(spec, "initContainers", container)]
                                     ["volumes" := Appended(spec, "volumes", volume)])])
  }

  /** Absent, null, another empty value, or a list: where appending works. */
  predicate Appendable(spec: map<string, Json>, key: string) {
    key !in spec || !Truthy(spec[key]) || spec[key].Arr?
  }

  predicate TakesInjection(pod: Json)
    requires pod.Obj? && "spec" in pod.fields && pod.fields["spec"].Obj?
  {
    Appendable(pod.fields["spec"].fields, "initContainers") && Appendable(pod.fields["spec"].fields, "volumes")
  }

  function AppendOp(spec: map<string, Json>, key: string, value: Json): Op {
    if Truthy(Get(spec, key, Arr([]))) then Add("/spec/" + key + "/-", value) else Add("/spec/" + key, Arr([value]))
  }

  // ---------- Why the lineage patch works ----------

  predicate PlainToken(t: string) {
    '/' !in t && '~' !in t
  }

  lemma AppendOpTokens(spec: map<string, Json>, key: string, value: Json)
    requires PlainToken(key)
    ensures Tokens(AppendOp(spec, key, value).path) ==
      Some(if Truthy(Get(spec, key, Arr([]))) then ["spec", key, "-"] else ["spec", key])
  {
    assert "/spec/" + key == "/" + ("spec" + "/" + key);
    assert "/spec/" + key + "/-" == "/" + ("spec" + "/" + key + "/" + "-");
    TokensOfTwo("spec", key);
    TokensOfThree("spec", key, "-");
    UnescapePlain("spec");
    UnescapePlain(key);
    UnescapePlain("-");
  }

  /** What adding below `/spec/key` does to the member. */
  function SpecAfter(spec: map<string, Json>, key: string, value: Json): Option<Json> {
    if !Truthy(Get(spec, key, Arr([]))) then Some(Arr([value]))
    else match spec[key]
      case Arr(items) => Some(Arr(items + [value]))
      case Obj(fields) => Some(Obj(fields["-" := value]))
      case _ => None
  }

  lemma AppendOpEffect(fields: map<string, Json>, spec: map<string, Json>, key: string, value: Json)
    requires PlainToken(key) && "spec" in fields && fields["spec"] == Obj(spec)
    ensures ApplyOp(Obj(fields), AppendOp(spec, key, value)) ==
      match SpecAfter(spec, key, value)
      case None => None
      case Some(member) => Some(Obj(fields["spec" := Obj(spec[key := member])]))
  {
    AppendOpTokens(spec, key, value);
    hide Tokens, Unescape, Split;
    var op := AppendOp(spec, key, value);
    if Truthy(Get(spec, key, Arr([]))) {
      AddBelowTwo(fields, "spec", spec, key, "-", op.value);
    } else {
      AddBelowOne(fields, "spec", spec, key, op.value);
    }
  }

  lemma AddBelowOne(fields: map<string, Json>, top: string, inner: map<string, Json>, key: string, value: Json)
    requires top in fields && fields[top] == Obj(inner)
    ensures AddAt(Obj(fields), [top, key], value) == Some(Obj(fields[top := Obj(inner[key := value])]))
  {
    assert [top, key][1..] == [key];
    assert AddAt(Obj(inner), [key], value) == Some(Obj(inner[key := value]));
  }

  lemma AddBelowTwo(fields: map<string, Json>, top: string, inner: map<string, Json>, key: string, t: string,
      value: Json)
    requires top in fields && fields[top] == Obj(inner) && key in inner
    ensures AddAt(Obj(fields), [top, key, t], value) ==
      match AddAt(inner[key], [t], value)
      case None => None
      case Some(member) => Some(Obj(fields[top := Obj(inner[key := member])]))
  {
    assert [top, key, t][1..] == [key, t] && [key, t][1..] == [t];
    var below := AddAt(Obj(inner), [key, t], value);
    assert below == match AddAt(inner[key], [t], value) case None => None
        case Some(member) => Some(Obj(inner[key := member]));
  }

  lemma MemberIsAppendedIff(spec: map<string, Json>, key: string, value: Json)
    ensures Appendable(spec, key) <==> SpecAfter(spec, key, value) == Some(Appended(spec, key, value))
  {
    assert [] + [value] == [value];
  }

  /** The patch always sets those two members, or fails. */
  function PatchedPod(pod: Json, a: Option<Json>, b: Option<Json>): Option<Json>
    requires pod.Obj? && "spec" in pod.fields && pod.fields["spec"].Obj?
  {
    if a.None? || b.None? then None
    else
      var spec := pod.fields["spec"].fields["initContainers" := a.value]["volumes" := b.value];
      Some(Obj(pod.fields["spec" := Obj(spec)]))
  }

  lemma PatchSetsTwoMembers(pod: Json, container: Json, volume: Json)
    requires pod.Obj? && "spec" in pod.fields && pod.fields["spec"].Obj?
    ensures var spec := pod.fields["spec"].fields;
      Apply(pod, [AppendOp(spec, "initContainers", container), AppendOp(spec, "volumes", volume)]) ==
      PatchedPod(pod, SpecAfter(spec, "initContainers", container), SpecAfter(spec, "volumes", volume))
  {
    var spec := pod.fields["spec"].fields;
    var first, second := AppendOp(spec, "initContainers", container), AppendOp(spec, "volumes", volume);
    AppendOpEffect(pod.fields, spec, "initContainers", container);
    ApplyTwo(pod, first, second);
    var a := SpecAfter(spec, "initContainers", container);
    if a.Some? {
      var spec' := spec["initContainers" := a.value];
      var fields' := pod.fields["spec" := Obj(spec')];
      OtherKeyUnaffected(spec, "initContainers", a.value, "volumes", volume);
      AppendOpEffect(fields', spec', "volumes", volume);
      var b := SpecAfter(spec, "volumes", volume);
      hide ApplyOp, Apply, SpecAfter, AppendOp;
      if b.Some? {
        assert fields'["spec" := Obj(spec'["volumes" := b.value])] ==
            pod.fields["spec" := Obj(spec'["volumes" := b.value])];
      }
    }
  }

  /** Two pods that differ only in those members are equal exactly when the members are. */
  lemma PatchedPodInjective(pod: Json, a: Option<Json>, b: Option<Json>, x: Json, y: Json)
    requires pod.Obj? && "spec" in pod.fields && pod.fields["spec"].Obj?
    ensures PatchedPod(pod, a, b) == PatchedPod(pod, Some(x), Some(y)) <==> a == Some(x) && b == Some(y)
  {
    if a.Some? && b.Some? && PatchedPod(pod, a, b) == PatchedPod(pod, Some(x), Some(y)) {
      var left := PatchedPod(pod, a, b).value.fields["spec"].fields;
      var right := PatchedPod(pod, Some(x), Some(y)).value.fields["spec"].fields;
      assert left["initContainers"] == a.value && left["volumes"] == b.value;
      assert right["initContainers"] == x && right["volumes"] == y;
    }
  }

  lemma InjectsIff(pod: Json, container: Json, volume: Json)
    requires pod.Obj? && "spec" in pod.fields && pod.fields["spec"].Obj?
    ensures var spec := pod.fields["spec"].fields;
      (TakesInjection(pod) <==>
       Apply(pod, [AppendOp(spec, "initContainers", container), AppendOp(spec, "volumes", volume)]) ==
           Some(Injected(pod, container, volume)))
  {
    var spec := pod.fields["spec"].fields;
    PatchSetsTwoMembers(pod, container, volume);
    MemberIsAppendedIff(spec, "initContainers", container);
    MemberIsAppendedIff(spec, "volumes", volume);
    var x, y := Appended(spec, "initContainers", container), Appended(spec, "volumes", volume);
    PatchedPodInjective(pod, SpecAfter(spec, "initContainers", container), SpecAfter(spec, "volumes", volume), x, y);
    assert Some(Injected(pod, container, volume)) == PatchedPod(pod, Some(x), Some(y));
    hide ApplyOp, Apply, SpecAfter, AppendOp, Appended, Appendable, PatchedPod, Injected;
  }

  lemma NoSpecNoPatch(pod: Json, spec: map<string, Json>, container: Json, second: Op)
    requires pod.Obj? && "spec" !in pod.fields
    ensures Apply(pod, [AppendOp(spec, "initContainers", container), second]).None?
  {
    AppendOpTokens(spec, "initContainers", container);
    ApplyTwo(pod, AppendOp(spec, "initContainers", container), second);
    hide Tokens, Apply;
  }

  lemma SpecPaths()
    ensures "/spec/" + "initContainers" + "/-" == "/spec/initContainers/-" &&
        "/spec/" + "initContainers" == "/spec/initContainers"
    ensures "/spec/" + "volumes" + "/-" == "/spec/volumes/-" && "/spec/" + "volumes" == "/spec/volumes"
  {
  }

  lemma OtherKeyUnaffected(spec: map<string, Json>, key: string, member: Json, other: string, value: Json)
    requires key != other
    ensures AppendOp(spec[key := member], other, value) == AppendOp(spec, other, value)
    ensures SpecAfter(spec[key := member], other, value) == SpecAfter(spec, other, value)
  {
  }

  lemma ApplyTwo(doc: Json, a: Op, b: Op)
    ensures Apply(doc, [a, b]) == match ApplyOp(doc, a) case None => None case Some(next) => ApplyOp(next, b)
  {
    assert [a, b][1..] == [b] && [b][1..] == [];
    hide ApplyOp;
    match ApplyOp(doc, a)
    case None =>
    case Some(next) => ApplyOne(next, b);
  }

  lemma ApplyOne(doc: Json, a: Op)
    ensures Apply(doc, [a]) == ApplyOp(doc, a)
  {
    hide ApplyOp;
    assert [a][1..] == [];
    match ApplyOp(doc, a)
    case None =>
    case Some(next) => assert Apply(next, []) == Some(next);
  }

  /** `create_lineage_patch`: None where a lookup raises. Applied to a pod that has a spec, the
      patch injects exactly one init container and one volume, if and only if the two
      members are lists, empty or absent. */
  method CreateLineagePatch(cfg: Config, pod: Json) returns (r: Option<seq<Op>>)
    ensures r.Some? <==> WellShapedPod(pod)
    ensures r.Some? && "spec" in pod.fields ==>
      (TakesInjection(pod) <==> Apply(pod, r.value) == Some(Injected(pod, PodContainer(cfg, pod), DownwardVolume())))
    ensures r.Some? && "spec" !in pod.fields ==> Apply(pod, r.value).None?
  {
    if !WellShapedPod(pod) { return None; }
    var container := PodContainer(cfg, pod);
    var volume := DownwardVolume();
    var spec := Get(pod.fields, "spec", EMPTY).fields;
    hide PodContainer, DownwardVolume, Apply, TakesInjection, Injected;
    SpecPaths();
    var patch: seq<Op> := [];
    if Truthy(Get(spec, "initContainers", Arr([]))) {
      patch := patch + [Add("/spec/initContainers/-", container)];
    } else {
      patch := patch + [Add("/spec/initContainers", Arr([container]))];
    }
    if Truthy(Get(spec, "volumes", Arr([]))) {
      patch := patch + [Add("/spec/volumes/-", volume)];
    } else {
      patch := patch + [Add("/spec/volumes", Arr([volume]))];
    }
    assert patch == [AppendOp(spec, "initContainers", container), AppendOp(spec, "volumes", volume)];
    if "spec" in pod.fields {
      InjectsIff(pod, container, volume);
    } else {
      NoSpecNoPatch(pod, spec, container, AppendOp(spec, "volumes", volume));
    }
    return Some(patch);
  }

  // ---------- What is injected ----------

  /** Python's falsy values, one by one. */
  lemma FalsyValues(j: Json)
    ensures Truthy(j) <==>
      !(j == Null || j == Bool(false) || j == Num(0) || j == Str("") || j == Arr([]) || j == Obj(map[]))
  {
  }

  /** Absent, or one of those. */
  predicate Lacks(fields: map<string, Json>, key: string) {
    key !in fields || fields[key] == Null || fields[key] == Bool(false) || fields[key] == Num(0)
    || fields[key] == Str("") || fields[key] == Arr([]) || fields[key] == Obj(map[])
  }

  lemma LacksIsFalsy(fields: map<string, Json>, key: string)
    ensures Lacks(fields, key) <==> !Truthy(Get(fields, key, Null))
  {
    if key in fields { FalsyValues(fields[key]); }
  }

  function NameLabel(): string { "app.kubernetes.io/name" }

  function AppLabel(): string { "app" }

  function LabelsMember(): string { "labels" }

  /** The owner is the name label, failing that the app label, failing that the pod's name, failing that
      `unknown`. */
  lemma OwnerIsFirstGiven(metadata: map<string, Json>, labels: map<string, Json>)
    requires ObjectOrAbsent(metadata, LabelsMember())
    requires if LabelsMember() in metadata then metadata[LabelsMember()] == Obj(labels) else labels == map[]
    ensures !Lacks(labels, NameLabel()) ==> JobName(metadata) == labels[NameLabel()]
    ensures Lacks(labels, NameLabel()) && !Lacks(labels, AppLabel()) ==> JobName(metadata) == labels[AppLabel()]
    ensures Lacks(labels, NameLabel()) && Lacks(labels, AppLabel()) ==>
      JobName(metadata) == if "name" in metadata then metadata["name"] else Str("unknown")
  {
    LacksIsFalsy(labels, NameLabel());
    LacksIsFalsy(labels, AppLabel());
    hide Lacks, Truthy;
  }

  /** The entry `k` of a container's environment gives the variable `name` a value. */
  predicate Sets(container: map<string, Json>, k: nat, name: string, value: Json) {
    && "env" in container && container["env"].Arr? && k < |container["env"].items|
    && container["env"].items[k] == Obj(map["name" := Str(name), "value" := value])
  }

  /** The container runs the configured image and is told the pod's namespace, or `default`, the
      configured address and the owner. */
  lemma ContainerIsTold(cfg: Config, pod: Json)
    requires WellShapedPod(pod)
    ensures var metadata := Get(pod.fields, "metadata", EMPTY).fields;
      && PodContainer(cfg, pod).Obj?
      && var container := PodContainer(cfg, pod).fields;
         && "image" in container && container["image"] == Str(cfg.image)
         && Sets(container, 0, "OPENLINEAGE_NAMESPACE",
                 if "namespace" in metadata then metadata["namespace"] else Str("default"))
         && Sets(container, 1, "OPENLINEAGE_URL", Str(cfg.lineageUrl))
         && Sets(container, 4, "OWNER_NAME", JobName(metadata))
  {
    hide JobName;
  }

  /** The volume that is mounted is the one that is added. */
  lemma AddedVolumeIsMounted(cfg: Config, pod: Json)
    requires WellShapedPod(pod)
    ensures var container, volume := PodContainer(cfg, pod), DownwardVolume();
      && container.Obj? && "volumeMounts" in container.fields && container.fields["volumeMounts"].Arr?
      && var mounts := container.fields["volumeMounts"].items;
         && |mounts| == 1 && mounts[0].Obj? && "name" in mounts[0].fields
         && volume.Obj? && "name" in volume.fields && mounts[0].fields["name"] == volume.fields["name"]
  {
    hide JobName;
  }

  /** The pod is the same but for its spec, and the spec but for the two members: lists gain one
      element at their end, anything else makes way for a list of one. */
  lemma OnlyTwoListsGrow(pod: Json, container: Json, volume: Json)
    requires pod.Obj? && "spec" in pod.fields && pod.fields["spec"].Obj?
    ensures Injected(pod, container, volume).Obj?
    ensures var before, after := pod.fields, Injected(pod, container, volume).fields;
      && after.Keys == before.Keys && after["spec"].Obj?
      && (forall k :: k in before && k != "spec" ==> after[k] == before[k])
      && var spec, spec' := before["spec"].fields, after["spec"].fields;
         && spec'.Keys == spec.Keys + {"initContainers", "volumes"}
         && (forall k :: k in spec && k !in {"initContainers", "volumes"} ==> spec'[k] == spec[k])
         && Grows(spec, spec', "initContainers", container) && Grows(spec, spec', "volumes", volume)
  {
  }

  predicate Grows(before: map<string, Json>, after: map<string, Json>, key: string, value: Json) {
    && key in after
    && (key in before && before[key].Arr? ==> after[key] == Arr(before[key].items + [value]))
    && (key !in before || !before[key].Arr? ==> after[key] == Arr([value]))
  }

  // ---------- The namespace patch ----------

  /** The answer to a review: allowed, perhaps with a patch, or denied because a lookup raised. */
  datatype Answer = Allowed(patch: Option<seq<Op>>) | Denied

  function MetadataKey(): string { "metadata" }

  function LabelsKey(): string { "labels" }

  function Region(): string { "region" }

  function TrustRegion(): string { "trust.fkm.io/region" }

  /** The second key as a pointer's reference token. */
  function TrustRegionToken(): string { "trust.fkm.io~1region" }

  function PartOf(): string { "app.kubernetes.io/part-of" }

  function MetadataOf(ns: Json): map<string, Json>
    requires ns.Obj? && ObjectOrAbsent(ns.fields, MetadataKey())
  {
    Get(ns.fields, MetadataKey(), EMPTY).fields
  }

  /** The namespaces whose chained lookups do not raise: the labels may be any empty value. */
  predicate WellShapedNamespace(ns: Json) {
    && ns.Obj? && ObjectOrAbsent(ns.fields, MetadataKey())
    && (var labels := Get(MetadataOf(ns), LabelsKey(), Null); labels.Obj? || !Truthy(labels))
  }

  function LabelsOf(ns: Json): map<string, Json>
    requires WellShapedNamespace(ns)
  {
    var labels := Get(MetadataOf(ns), LabelsKey(), Null);
    if Truthy(labels) then labels.fields else map[]
  }

  predicate HasLabel(labels: map<string, Json>, key: string) {
    Truthy(Get(labels, key, Null))
  }

  /** The namespaces the webhook is for that lack a region label. */
  predicate NeedsRegion(ns: Json)
    requires WellShapedNamespace(ns)
  {
    && (|| Get(MetadataOf(ns), "name", Str("")) == Str("fkm")
        || Get(LabelsOf(ns), PartOf(), Null) == Str("feast-kfp-mlflow"))
    && !(HasLabel(LabelsOf(ns), Region()) && HasLabel(LabelsOf(ns), TrustRegion()))
  }

  /** The namespace with another set of labels. */
  function Relabelled(ns: Json, labels: map<string, Json>): Json
    requires ns.Obj? && ObjectOrAbsent(ns.fields, MetadataKey())
  {
    Obj(ns.fields[MetadataKey() := Obj(MetadataOf(ns)[LabelsKey() := Obj(labels)])])
  }

  function Filled(labels: map<string, Json>, key: string, region: string): map<string, Json> {
    if HasLabel(labels, key) then labels else labels[key := Str(region)]
  }

  /** The namespace with its missing or empty region labels set, and nothing else changed. */
  function WithRegions(ns: Json, region: string): Json
    requires WellShapedNamespace(ns)
  {
    Relabelled(ns, Filled(Filled(LabelsOf(ns), Region(), region), TrustRegion(), region))
  }

  /** Labels already set stay, both regions are set to their old value or the default one, no
      other label and no other member changes. */
  lemma RegionsAreFilled(ns: Json, region: string)
    requires WellShapedNamespace(ns)
    ensures var after := WithRegions(ns, region);
      && after.Obj? && after.fields.Keys == ns.fields.Keys + {MetadataKey()} &&
          ObjectOrAbsent(after.fields, MetadataKey())
      && (forall k :: k in ns.fields && k != MetadataKey() ==> after.fields[k] == ns.fields[k])
      && MetadataOf(after).Keys == MetadataOf(ns).Keys + {LabelsKey()}
      && (forall k :: k in MetadataOf(ns) && k != LabelsKey() ==> MetadataOf(after)[k] == MetadataOf(ns)[k])
      && WellShapedNamespace(after)
      && LabelsOf(after).Keys == LabelsOf(ns).Keys + {Region(), TrustRegion()}
      && (forall k :: k in LabelsOf(after) ==>
            LabelsOf(after)[k] == if k in [Region(), TrustRegion()] && !HasLabel(LabelsOf(ns), k) then Str(region)
                else LabelsOf(ns)[k])
  {
    var labels := Filled(Filled(LabelsOf(ns), Region(), region), TrustRegion(), region);
    RelabelledParts(ns, labels);
    FilledParts(LabelsOf(ns), region);
    hide Relabelled, Filled;
  }

  /** After the patch a second call finds nothing to do, unless the default region is empty. */
  lemma SecondCallIsQuiet(ns: Json, region: string)
    requires WellShapedNamespace(ns) && NeedsRegion(ns)
    ensures WellShapedNamespace(WithRegions(ns, region))
    ensures NeedsRegion(WithRegions(ns, region)) <==> region == ""
  {
    RegionsAreFilled(ns, region);
    KeysDiffer();
    NameIsNotLabels();
    hide MetadataKey, LabelsKey, Region, TrustRegion, TrustRegionToken, PartOf;
    var after := WithRegions(ns, region);
    hide WithRegions, MetadataOf, LabelsOf;
    assert Region() in LabelsOf(after) && TrustRegion() in LabelsOf(after);
    assert PartOf() in LabelsOf(after) <==> PartOf() in LabelsOf(ns);
    assert "name" in MetadataOf(after) <==> "name" in MetadataOf(ns);
  }

  /** A patch is wanted by the namespace `fkm` and by those that are part of the stack, when one of the two
      regions is not there or empty. */
  lemma NeedsRegionIff(ns: Json)
    requires WellShapedNamespace(ns)
    ensures NeedsRegion(ns) <==>
      && (("name" in MetadataOf(ns) && MetadataOf(ns)["name"] == Str("fkm"))
          || (PartOf() in LabelsOf(ns) && LabelsOf(ns)[PartOf()] == Str("feast-kfp-mlflow")))
      && exists key :: key in [Region(), TrustRegion()] && Lacks(LabelsOf(ns), key)
  {
    LacksIsFalsy(LabelsOf(ns), Region());
    LacksIsFalsy(LabelsOf(ns), TrustRegion());
    hide Lacks, Truthy, Region, TrustRegion, PartOf, LabelsOf, MetadataOf;
    assert Region() in [Region(), TrustRegion()] && TrustRegion() in [Region(), TrustRegion()];
  }

  // ---------- Why the namespace patch works ----------

  lemma NeededMeansMetadata(ns: Json)
    requires WellShapedNamespace(ns) && NeedsRegion(ns)
    ensures MetadataKey() in ns.fields
  {
  }

  lemma RelabelledParts(ns: Json, labels: map<string, Json>)
    requires ns.Obj? && ObjectOrAbsent(ns.fields, MetadataKey()) && labels != map[]
    ensures ObjectOrAbsent(Relabelled(ns, labels).fields, MetadataKey())
    ensures Relabelled(ns, labels).fields.Keys == ns.fields.Keys + {MetadataKey()}
    ensures forall k :: k in ns.fields && k != MetadataKey() ==> Relabelled(ns, labels).fields[k] == ns.fields[k]
    ensures MetadataOf(Relabelled(ns, labels)) == MetadataOf(ns)[LabelsKey() := Obj(labels)]
    ensures WellShapedNamespace(Relabelled(ns, labels)) && LabelsOf(Relabelled(ns, labels)) == labels
  {
  }

  lemma FilledParts(labels: map<string, Json>, region: string)
    ensures var after := Filled(Filled(labels, Region(), region), TrustRegion(), region);
      && after != map[] && after.Keys == labels.Keys + {Region(), TrustRegion()}
      && (forall k :: k in after ==>
            after[k] == if k in [Region(), TrustRegion()] && !HasLabel(labels, k) then Str(region) else labels[k])
  {
    KeysDiffer();
    hide MetadataKey, LabelsKey, Region, TrustRegion, TrustRegionToken, PartOf;
    var after := Filled(Filled(labels, Region(), region), TrustRegion(), region);
    assert Region() in after;
  }

  function BothRegions(region: string): map<string, Json> {
    map[Region() := Str(region), TrustRegion() := Str(region)]
  }

  lemma FreshLabelsFill(ns: Json, region: string)
    requires WellShapedNamespace(ns) && MetadataKey() in ns.fields && LabelsOf(ns) == map[]
    ensures Apply(ns, [Add(LabelsPath(), Obj(BothRegions(region)))]) == Some(WithRegions(ns, region))
  {
    var labels := BothRegions(region);
    LabelsPathTokens();
    FreshFilled(region);
    hide MetadataKey, LabelsKey, Tokens, LabelsPath, BothRegions, Apply, Filled;
    AddBelowOne(ns.fields, MetadataKey(), MetadataOf(ns), LabelsKey(), Obj(labels));
    ApplyOne(ns, Add(LabelsPath(), Obj(labels)));
    hide AddAt;
  }

  lemma FreshFilled(region: string)
    ensures Filled(Filled(map[], Region(), region), TrustRegion(), region) ==
            BothRegions(region)
  {
  }

  lemma AddLabel(ns: Json, labels: map<string, Json>, token: string, value: Json)
    requires ns.Obj? && ObjectOrAbsent(ns.fields, MetadataKey()) && '/' !in token
    ensures ApplyOp(Relabelled(ns, labels), Add(LabelPath(token), value)) ==
            Some(Relabelled(ns, labels[Unescape(token) := value]))
  {
    LabelPathTokens(token);
    var key := Unescape(token);
    hide Tokens, Unescape, LabelPath;
    var before := Relabelled(ns, labels);
    var metadata := MetadataOf(ns)[LabelsKey() := Obj(labels)];
    AddBelowTwo(before.fields, MetadataKey(), metadata, LabelsKey(), key, value);
    assert AddAt(Obj(labels), [key], value) == Some(Obj(labels[key := value]));
    SetTwice(ns.fields, MetadataKey(), MetadataOf(ns), LabelsKey(), Obj(labels), Obj(labels[key := value]));
    hide AddAt, MetadataOf;
  }

  lemma SetTwice(fields: map<string, Json>, top: string, inner: map<string, Json>, key: string, before: Json,
      after: Json)
    ensures fields[top := Obj(inner[key := before])][top := Obj(inner[key := before][key := after])] ==
        fields[top := Obj(inner[key := after])]
  {
    assert inner[key := before][key := after] == inner[key := after];
    var x := Obj(inner[key := after]);
    assert fields[top := Obj(inner[key := before])][top := x] == fields[top := x];
  }

  lemma OwnLabels(ns: Json)
    requires WellShapedNamespace(ns) && MetadataKey() in ns.fields && LabelsOf(ns) != map[]
    ensures Relabelled(ns, LabelsOf(ns)) == ns
  {
    var metadata := MetadataOf(ns);
    assert metadata[LabelsKey() := metadata[LabelsKey()]] == metadata;
    assert ns.fields[MetadataKey() := ns.fields[MetadataKey()]] == ns.fields;
  }

  /** The operations the handler appends when the namespace has labels. */
  function LabelOps(labels: map<string, Json>, region: string): seq<Op> {
    var first, second := Add(LabelPath(Region()), Str(region)), Add(LabelPath(TrustRegionToken()), Str(region));
    if HasLabel(labels, Region()) then (if HasLabel(labels, TrustRegion()) then [] else [second])
    else if HasLabel(labels, TrustRegion()) then [first]
    else [first, second]
  }

  lemma OpsFill(ns: Json, labels: map<string, Json>, region: string)
    requires ns.Obj? && ObjectOrAbsent(ns.fields, MetadataKey()) && Relabelled(ns, labels) == ns
    requires LabelOps(labels, region) != []
    ensures Apply(ns, LabelOps(labels, region)) ==
            Some(Relabelled(ns, Filled(Filled(labels, Region(), region), TrustRegion(), region)))
  {
    UnescapeRegions();
    RegionPlain();
    KeysDiffer();
    hide MetadataKey, LabelsKey, Region, TrustRegion, TrustRegionToken, PartOf, Apply, Unescape, Relabelled,
        LabelPath, ObjectOrAbsent, PlainToken;
    AddTwoLabels(ns, labels, Region(), TrustRegionToken(), Str(region));
    assert HasLabel(labels[Region() := Str(region)], TrustRegion()) == HasLabel(labels, TrustRegion());
  }

  lemma MissingLabelsFill(ns: Json, region: string)
    requires WellShapedNamespace(ns) && MetadataKey() in ns.fields && LabelsOf(ns) != map[]
    requires LabelOps(LabelsOf(ns), region) != []
    ensures Apply(ns, LabelOps(LabelsOf(ns), region)) == Some(WithRegions(ns, region))
  {
    OwnLabels(ns);
    hide LabelOps, Relabelled, Apply, Filled, Region, TrustRegion, LabelsOf;
    OpsFill(ns, LabelsOf(ns), region);
  }

  lemma AddTwoLabels(ns: Json, labels: map<string, Json>, a: string, b: string, value: Json)
    requires ns.Obj? && ObjectOrAbsent(ns.fields, MetadataKey()) && '/' !in a && '/' !in b
    requires Relabelled(ns, labels) == ns
    ensures Apply(ns, [Add(LabelPath(a), value)]) == Some(Relabelled(ns, labels[Unescape(a) := value]))
    ensures Apply(ns, [Add(LabelPath(b), value)]) == Some(Relabelled(ns, labels[Unescape(b) := value]))
    ensures Apply(ns, [Add(LabelPath(a), value), Add(LabelPath(b), value)]) ==
            Some(Relabelled(ns, labels[Unescape(a) := value][Unescape(b) := value]))
  {
    hide *;
    var first, second := Add(LabelPath(a), value), Add(LabelPath(b), value);
    AddLabel(ns, labels, a, value);
    AddLabel(ns, labels, b, value);
    AddLabel(ns, labels[Unescape(a) := value], b, value);
    ApplyOne(ns, first);
    ApplyOne(ns, second);
    ApplyTwo(ns, first, second);
  }

  // ---------- Pointers ----------

  function LabelsPath(): string {
    "/" + (MetadataKey() + "/" + LabelsKey())
  }

  function LabelPath(token: string): string {
    "/" + (MetadataKey() + "/" + LabelsKey() + "/" + token)
  }

  lemma PlainKeys()
    ensures PlainToken(MetadataKey()) && PlainToken(LabelsKey())
  {
  }

  lemma LabelsPathTokens()
    ensures Tokens(LabelsPath()) == Some([MetadataKey(), LabelsKey()])
  {
    PlainKeys();
    hide MetadataKey, LabelsKey, Tokens, Unescape;
    TokensOfTwo(MetadataKey(), LabelsKey());
    UnescapePlain(MetadataKey());
    UnescapePlain(LabelsKey());
  }

  lemma LabelPathTokens(token: string)
    requires '/' !in token
    ensures Tokens(LabelPath(token)) == Some([MetadataKey(), LabelsKey(), Unescape(token)])
  {
    PlainKeys();
    hide MetadataKey, LabelsKey, Tokens, Unescape;
    TokensOfThree(MetadataKey(), LabelsKey(), token);
    UnescapePlain(MetadataKey());
    UnescapePlain(LabelsKey());
  }

  lemma RegionPlain()
    ensures PlainToken(Region()) && '/' !in TrustRegionToken()
  {
  }

  lemma TrustRegionParts()
    ensures TrustRegionToken() == "trust.fkm.io" + "~1" + Region() && TrustRegion() == "trust.fkm.io" + "/" + Region()
  {
  }

  lemma UnescapeRegions()
    ensures Unescape(Region()) == Region() && Unescape(TrustRegionToken()) == TrustRegion()
  {
    RegionPlain();
    TrustRegionParts();
    hide Unescape, Region, TrustRegion, TrustRegionToken;
    UnescapePlain(Region());
    UnescapeSlash("trust.fkm.io", Region());
  }

  lemma KeysDiffer()
    ensures Region() != TrustRegion() && PartOf() != Region() && PartOf() != TrustRegion()
  {
    assert |Region()| == 6 && |TrustRegion()| == 19 && |PartOf()| == 25;
  }

  lemma NameIsNotLabels()
    ensures "name" != LabelsKey()
  {
    assert |LabelsKey()| == 6;
  }

  /** `mutate_namespace`: denied exactly when a lookup raises, a patch exactly when a region
      label is wanted and missing, and the patch sets the missing ones and nothing else. */
  method MutateNamespace(ns: Json, region: string) returns (r: Answer)
    ensures r.Denied? <==> !WellShapedNamespace(ns)
    ensures r.Allowed? ==> (r.patch.Some? <==> NeedsRegion(ns))
    ensures r.Allowed? && r.patch.Some? ==> Apply(ns, r.patch.value) == Some(WithRegions(ns, region))
  {
    if !WellShapedNamespace(ns) { return Denied; }
    var name := Get(MetadataOf(ns), "name", Str(""));
    var labels := LabelsOf(ns);
    if name != Str("fkm") && Get(labels, PartOf(), Null) != Str("feast-kfp-mlflow") {
      return Allowed(None);
    }
    if HasLabel(labels, Region()) && HasLabel(labels, TrustRegion()) { return Allowed(None); }
    hide MetadataKey, LabelsKey, Region, TrustRegion, TrustRegionToken, PartOf, Apply, WithRegions, BothRegions,
        LabelPath, LabelsPath, MetadataOf;
    NeededMeansMetadata(ns);
    var patch: seq<Op> := [];
    if labels == map[] {
      hide WellShapedNamespace, NeedsRegion, LabelsOf, ObjectOrAbsent;
      patch := patch + [Add(LabelsPath(), Obj(BothRegions(region)))];
      FreshLabelsFill(ns, region);
    } else {
      hide WellShapedNamespace, NeedsRegion, LabelsOf, ObjectOrAbsent;
      if !HasLabel(labels, Region()) {
        patch := patch + [Add(LabelPath(Region()), Str(region))];
      }
      if !HasLabel(labels, TrustRegion()) {
        patch := patch + [Add(LabelPath(TrustRegionToken()), Str(region))];
      }
      hide HasLabel;
      assert patch == LabelOps(labels, region);
      MissingLabelsFill(ns, region);
    }
    return Allowed(Some(patch));
  }
}
