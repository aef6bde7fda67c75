/**
 Extraction of the policy-relevant intent of a request from its JSON payload (pkg/mcpserver/intent.go),
 whose hash keys the deny cache.
 */
module Intent {
  import opened Wrappers
  import opened Sorting
  import Strings

  datatype Json =
    | Null
    | Bool(b: bool)
    | Number(n: int)
    | Text(s: string)
    | List(items: seq<Json>)
    | Object(fields: Fields)

  type Fields = map<string, Json>

  /** Library functions left open: `strings.ToLower`, and `%v` formatting of values that are not strings. */
  datatype Library = Library(lower: string -> string, format: Json -> string)

  datatype Posture = Posture(privileged: seq<bool>, runAsUser: seq<int>, hostPID: bool, hostIPC: bool,
    hostNetwork: bool, capabilities: seq<string>)

  datatype SemanticIntent = SemanticIntent(tool: string, operation: string, namespace: string, kind: string,
    name: string, images: seq<string>, posture: Posture, resourceTypes: seq<string>, destroyCount: Option<int>,
    cidrs: seq<string>, iamActions: seq<string>, helmNamespace: string, appName: string)

  // ----- Lookups

  function ExtractString(m: Fields, key: string): string {
    if key in m && m[key].Text? then Strings.TrimSpace(m[key].s) else ""
  }

  /** `extractMap` and one step of `extractNestedMap`; a missing map reads as an empty one. */
  function ExtractMap(m: Fields, key: string): Fields {
    if key in m && m[key].Object? then m[key].fields else map[]
  }

  predicate HasMap(m: Fields, key: string) {
    key in m && m[key].Object?
  }

  predicate ExtractBool(m: Fields, key: string) {
    key in m && m[key] == Bool(true)
  }

  function ExtractInt(m: Fields, key: string): Option<int> {
    if key in m && m[key].Number? then Some(m[key].n) else None
  }

  /** Concatenation of what each item contributes, in order. */
  function Gather<T>(f: Json -> seq<T>, items: seq<Json>): seq<T> {
    if items == [] then [] else Gather(f, items[..|items| - 1]) + f(items[|items| - 1])
  }

  function TextOf(item: Json): seq<string> {
    if item.Text? then [item.s] else []
  }

  function ExtractStringSlice(m: Fields, key: string): seq<string> {
    if key in m && m[key].List? then Gather(TextOf, m[key].items) else []
  }

  function ExtractList(m: Fields, key: string): seq<Json> {
    if key in m && m[key].List? then m[key].items else []
  }

  function FirstNonEmpty(a: string, b: string): string {
    if a != "" then a else b
  }

  /** spec.template.spec. */
  function PodSpec(payload: Fields): Fields {
    ExtractMap(ExtractMap(ExtractMap(payload, "spec"), "template"), "spec")
  }

  // ----- Containers

  function SecurityContext(container: Fields): Fields {
    if HasMap(container, "security_context") then ExtractMap(container, "security_context")
    else ExtractMap(container, "securityContext")
  }

  function ImageOf(lib: Library, container: Json): seq<string> {
    if !container.Object? then []
    else
      var m := container.fields;
      var text := if "image" !in m || m["image"].Null? then "<nil>"
                  else if m["image"].Text? then m["image"].s else lib.format(m["image"]);
      var img := lib.lower(Strings.TrimSpace(text));
      if img == "" || img == "<nil>" then [] else [img]
  }

  /** The per-container posture entries, which keep the order of the containers. */
  function EntryOf(container: Json): seq<(bool, int)> {
    if !container.Object? then []
    else
      var sc := SecurityContext(container.fields);
      var user := match ExtractInt(sc, "run_as_user")
        case Some(n) => n
        case None => match ExtractInt(sc, "runAsUser") case Some(n) => n case None => -1;
      [(ExtractBool(sc, "privileged"), user)]
  }

  function CapabilitiesOf(container: Json): seq<string> {
    if !container.Object? then []
    else ExtractStringSlice(ExtractMap(SecurityContext(container.fields), "capabilities"), "add")
  }

  function ImageReader(lib: Library): Json -> seq<string> {
    c => ImageOf(lib, c)
  }

  /** `extractImages`: lower-cased, de-duplicated, sorted. */
  function Images(lib: Library, containers: seq<Json>): seq<string> {
    Strings.Canonical(Gather(ImageReader(lib), containers))
  }

  function Capabilities(containers: seq<Json>): seq<string> {
    SortedGather(CapabilitiesOf, containers)
  }

  function Entries(containers: seq<Json>): seq<(bool, int)> {
    Gather(EntryOf, containers)
  }

  /** The container names image `x`: its text, or what stands in its place formatted, trimmed and lower-cased. */
  predicate ShowsImage(lib: Library, container: Json, x: string) {
    && container.Object? && x != "" && x != "<nil>"
    && if "image" !in container.fields || container.fields["image"].Null? then x == lib.lower("<nil>")
       else if container.fields["image"].Text? then x == lib.lower(Strings.TrimSpace(container.fields["image"].s))
       else x == lib.lower(Strings.TrimSpace(lib.format(container.fields["image"])))
  }

  lemma ImageShown(lib: Library, container: Json, x: string)
    ensures x in ImageOf(lib, container) <==> ShowsImage(lib, container, x)
  {
    assert Strings.TrimSpace("<nil>") == "<nil>";
    hide Strings.TrimSpace;
  }

  /** The images are exactly the names the containers show, strictly sorted. */
  lemma ImagesExactly(lib: Library, containers: seq<Json>)
    ensures StrictlySorted(Strings.Less, Images(lib, containers))
    ensures forall x :: x in Images(lib, containers) <==>
      exists i :: 0 <= i < |containers| && ShowsImage(lib, containers[i], x)
  {
    hide Strings.Canonical, Strings.Less, ImageOf, Gather, ShowsImage;
    var f := ImageReader(lib);
    Strings.CanonicalSpec(Gather(f, containers));
    forall x
      ensures x in Gather(f, containers) <==> exists i :: 0 <= i < |containers| && ShowsImage(lib, containers[i], x)
      ensures x in Gather(f, containers) ==> x != ""
    {
      GatherMember(f, containers, x);
      forall i | 0 <= i < |containers| ensures x in f(containers[i]) <==> ShowsImage(lib, containers[i], x) {
        ImageShown(lib, containers[i], x);
      }
      if i :| 0 <= i < |containers| && x in f(containers[i]) { ShownIsNotEmpty(lib, containers[i], x); }
      if i :| 0 <= i < |containers| && ShowsImage(lib, containers[i], x) { assert x in f(containers[i]); }
    }
  }

  lemma ShownIsNotEmpty(lib: Library, container: Json, x: string)
    requires ShowsImage(lib, container, x)
    ensures x != "" && x != "<nil>"
  {
    hide Strings.TrimSpace;
  }

  /** The loop of `extractImages` with its seen-map. */
  method ExtractImages(lib: Library, containers: seq<Json>) returns (images: seq<string>)
    ensures images == Images(lib, containers)
    ensures StrictlySorted(Strings.Less, images)
    ensures forall x :: x in images <==> exists i :: 0 <= i < |containers| && ShowsImage(lib, containers[i], x)
  {
    hide ImageOf, Found, Images, ShowsImage, Strings.Less;
    ImagesExactly(lib, containers);
    var seen: set<string> := {};
    images := [];
    FoundNothing(lib, containers);
    for i := 0 to |containers|
      invariant images == Found(lib, containers, i)
      invariant seen == Elements(images)
    {
      FoundNext(lib, containers, i);
      var img := ImageOf(lib, containers[i]);
      if img != [] && img[0] !in seen {
        seen := seen + {img[0]};
        images := images + img;
      }
    }
    FoundAll(lib, containers);
    images := Sort(Strings.Less, images);
  }

  /** The distinct images of the first `i` containers in order of appearance. */
  ghost function Found(lib: Library, containers: seq<Json>, i: nat): seq<string>
    requires i <= |containers|
  {
    Strings.Dedupe(Gather(ImageReader(lib), containers[..i]))
  }

  lemma FoundNothing(lib: Library, containers: seq<Json>)
    ensures Found(lib, containers, 0) == []
  {
    assert containers[..0] == [];
  }

  lemma FoundAll(lib: Library, containers: seq<Json>)
    ensures Sort(Strings.Less, Found(lib, containers, |containers|)) == Images(lib, containers)
  {
    assert containers[..|containers|] == containers;
  }

  lemma FoundNext(lib: Library, containers: seq<Json>, i: nat)
    requires i < |containers|
    ensures var img, before := ImageOf(lib, containers[i]), Found(lib, containers, i);
            && |img| <= 1
            && Found(lib, containers, i + 1) == if img == [] || img[0] in before then before else before + img
  {
    hide ImageOf, Gather, Strings.Dedupe;
    var f := ImageReader(lib);
    assert containers[..i + 1] == containers[..i] + [containers[i]];
    GatherSnoc(f, containers[..i], containers[i]);
    ImageIsOne(lib, containers[i]);
    DedupeStep(Gather(f, containers[..i]), ImageOf(lib, containers[i]));
  }

  lemma ImageIsOne(lib: Library, c: Json)
    ensures |ImageOf(lib, c)| <= 1 && (ImageOf(lib, c) != [] ==> ImageOf(lib, c)[0] != "")
  {
  }

  lemma DedupeStep(s: seq<string>, more: seq<string>)
    requires |more| <= 1 && (more != [] ==> more[0] != "")
    ensures Strings.Dedupe(s + more)
      == if more == [] || more[0] in Strings.Dedupe(s) then Strings.Dedupe(s) else Strings.Dedupe(s) + more
  {
    if more == [] {
      assert s + more == s;
    } else {
      assert (s + more)[..|s|] == s && more == [more[0]];
    }
  }

  /** The loop of `extractContainerPosture`. */
  method ExtractContainerPosture(containers: seq<Json>) returns (posture: Posture)
    ensures posture.privileged == Firsts(Entries(containers)) && posture.runAsUser == Seconds(Entries(containers))
    ensures posture.capabilities == Capabilities(containers)
    ensures !posture.hostPID && !posture.hostIPC && !posture.hostNetwork
  {
    hide SecurityContext, CapabilitiesOf, EntryOf;
    var privileged: seq<bool>, runAsUser: seq<int>, capabilities: seq<string> := [], [], [];
    for i := 0 to |containers|
      invariant privileged == Firsts(Entries(containers[..i])) && runAsUser == Seconds(Entries(containers[..i]))
      invariant capabilities == Gather(CapabilitiesOf, containers[..i])
    {
      assert containers[..i + 1] == containers[..i] + [containers[i]];
      GatherSnoc(EntryOf, containers[..i], containers[i]);
      GatherSnoc(CapabilitiesOf, containers[..i], containers[i]);
      var entry := EntryOf(containers[i]);
      privileged := privileged + Firsts(entry);
      runAsUser := runAsUser + Seconds(entry);
      capabilities := capabilities + CapabilitiesOf(containers[i]);
    }
    assert containers[..|containers|] == containers;
    capabilities := Sort(Strings.Less, capabilities);
    posture := Posture(privileged, runAsUser, false, false, false, capabilities);
  }

  // ----- Terraform

  function CidrsOf(rule: Json): seq<string> {
    if !rule.Object? then []
    else
      var cidr, blocks := ExtractString(rule.fields, "cidr"), ExtractString(rule.fields, "cidr_blocks");
      (if cidr != "" then [cidr] else []) + if blocks != "" then [blocks] else []
  }

  function ActionsOf(stmt: Json): seq<string> {
    if !stmt.Object? then []
    else ExtractStringSlice(stmt.fields, "actions") + ExtractStringSlice(stmt.fields, "Action")
  }

  /** A list field gathered through `f` and sorted. */
  function SortedGather(f: Json -> seq<string>, items: seq<Json>): seq<string> {
    Sort(Strings.Less, Gather(f, items))
  }

  function TerraformIntent(base: SemanticIntent, payload: Fields): SemanticIntent {
    base.(resourceTypes := SortedGather(TextOf, ExtractList(payload, "resource_types")),
          destroyCount := ExtractInt(payload, "destroy_count"),
          cidrs := SortedGather(CidrsOf, ExtractList(payload, "security_group_rules")),
          iamActions := SortedGather(ActionsOf, ExtractList(payload, "iam_policy_statements")))
  }

  /** One list loop of `extractTerraformIntent` or `extractStringSlice`: gather from every item, in order. */
  method GatherLoop(f: Json -> seq<string>, items: seq<Json>) returns (out: seq<string>)
    ensures out == Gather(f, items)
  {
    out := [];
    for i := 0 to |items|
      invariant out == Gather(f, items[..i])
    {
      assert items[..i + 1] == items[..i] + [items[i]];
      GatherSnoc(f, items[..i], items[i]);
      out := out + f(items[i]);
    }
    assert items[..|items|] == items;
  }

  /** `extractTerraformIntent`. */
  method ExtractTerraformIntent(base: SemanticIntent, payload: Fields) returns (intent: SemanticIntent)
    requires base.resourceTypes == [] && base.destroyCount.None? && base.cidrs == [] && base.iamActions == []
    ensures intent == TerraformIntent(base, payload)
  {
    hide Gather;
    intent := base;
    var types := GatherLoop(TextOf, ExtractList(payload, "resource_types"));
    intent := intent.(resourceTypes := Sort(Strings.Less, types));
    if "destroy_count" in payload {
      var count := ExtractInt(payload, "destroy_count");
      if count.Some? { intent := intent.(destroyCount := count); }
    }
    var cidrs := GatherLoop(CidrsOf, ExtractList(payload, "security_group_rules"));
    intent := intent.(cidrs := Sort(Strings.Less, cidrs));
    var actions := GatherLoop(ActionsOf, ExtractList(payload, "iam_policy_statements"));
    intent := intent.(iamActions := Sort(Strings.Less, actions));
  }

  // ----- Extraction

  function AllContainers(payload: Fields): seq<Json> {
    var flat := ExtractList(payload, "containers");
    var containers := if flat == [] then ExtractList(PodSpec(payload), "containers") else flat;
    var flatInit := ExtractList(payload, "init_containers");
    var nativeInit := ExtractList(PodSpec(payload), "initContainers");
    var init := if flatInit != [] then flatInit
                else if nativeInit != [] then nativeInit else ExtractList(PodSpec(payload), "init_containers");
    containers + init
  }

  function Firsts(s: seq<(bool, int)>): seq<bool> {
    seq(|s|, i requires 0 <= i < |s| => s[i].0)
  }

  function Seconds(s: seq<(bool, int)>): seq<int> {
    seq(|s|, i requires 0 <= i < |s| => s[i].1)
  }

  function K8sIntent(lib: Library, base: SemanticIntent, payload: Fields): SemanticIntent {
    var meta, spec := ExtractMap(payload, "metadata"), PodSpec(payload);
    var containers := AllContainers(payload);
    var entries := Entries(containers);
    var posture := Posture(Firsts(entries), Seconds(entries),
      ExtractBool(payload, "host_pid") || ExtractBool(payload, "hostPID")
        || ExtractBool(spec, "host_pid") || ExtractBool(spec, "hostPID") || ExtractBool(spec, "hostPid"),
      ExtractBool(payload, "host_ipc") || ExtractBool(payload, "hostIPC")
        || ExtractBool(spec, "host_ipc") || ExtractBool(spec, "hostIPC") || ExtractBool(spec, "hostIpc"),
      ExtractBool(payload, "host_network") || ExtractBool(payload, "hostNetwork")
        || ExtractBool(spec, "host_network") || ExtractBool(spec, "hostNetwork"),
      Capabilities(containers));
    base.(
      namespace := lib.lower(FirstNonEmpty(ExtractString(payload, "namespace"), ExtractString(meta, "namespace"))),
      kind := lib.lower(FirstNonEmpty(ExtractString(payload, "resource"), ExtractString(payload, "kind"))),
      name := lib.lower(FirstNonEmpty(ExtractString(payload, "name"), ExtractString(meta, "name"))),
      images := Images(lib, containers),
      posture := posture)
  }

  /** Containers from the flat path, or from the native one where the flat list is empty. */
  method CollectContainers(payload: Fields) returns (all: seq<Json>)
    ensures all == AllContainers(payload)
  {
    hide ExtractList, PodSpec;
    var containers, initContainers := ExtractList(payload, "containers"), ExtractList(payload, "init_containers");
    if |containers| == 0 {
      containers := ExtractList(PodSpec(payload), "containers");
    }
    if |initContainers| == 0 {
      initContainers := ExtractList(PodSpec(payload), "initContainers");
      if |initContainers| == 0 {
        initContainers := ExtractList(PodSpec(payload), "init_containers");
      }
    }
    all := containers + initContainers;
  }

  /** `extractK8sIntent`: the pod-level flags may be set on the payload or on the pod spec. */
  method ExtractK8sIntent(lib: Library, base: SemanticIntent, payload: Fields) returns (intent: SemanticIntent)
    ensures intent == K8sIntent(lib, base, payload)
  {
    hide ExtractString, ExtractBool, ExtractMap, PodSpec, AllContainers, Images, Entries, Capabilities, Firsts, Seconds;
    var meta, spec := ExtractMap(payload, "metadata"), PodSpec(payload);
    var containers := CollectContainers(payload);
    var images := ExtractImages(lib, containers);
    var posture := ExtractContainerPosture(containers);
    var pid := ExtractBool(payload, "host_pid") || ExtractBool(payload, "hostPID");
    var ipc := ExtractBool(payload, "host_ipc") || ExtractBool(payload, "hostIPC");
    var network := ExtractBool(payload, "host_network") || ExtractBool(payload, "hostNetwork");
    if !pid {
      pid := ExtractBool(spec, "host_pid") || ExtractBool(spec, "hostPID") || ExtractBool(spec, "hostPid");
    }
    if !ipc {
      ipc := ExtractBool(spec, "host_ipc") || ExtractBool(spec, "hostIPC") || ExtractBool(spec, "hostIpc");
    }
    if !network {
      network := ExtractBool(spec, "host_network") || ExtractBool(spec, "hostNetwork");
    }
    intent := base.(
      namespace := lib.lower(FirstNonEmpty(ExtractString(payload, "namespace"), ExtractString(meta, "namespace"))),
      kind := lib.lower(FirstNonEmpty(ExtractString(payload, "resource"), ExtractString(payload, "kind"))),
      name := lib.lower(FirstNonEmpty(ExtractString(payload, "name"), ExtractString(meta, "name"))),
      images := images,
      posture := posture.(hostPID := pid, hostIPC := ipc, hostNetwork := network));
  }

  /** Tool and operation alone. */
  function BareIntent(lib: Library, tool: string, operation: string): SemanticIntent {
    SemanticIntent(lib.lower(Strings.TrimSpace(tool)), lib.lower(Strings.TrimSpace(operation)), "", "", "", [],
      Posture([], [], false, false, false, []), [], None, [], [], "", "")
  }

  /** `ExtractSemanticIntent`; a missing payload leaves only tool and operation. */
  function ExtractSemanticIntent(lib: Library, tool: string, operation: string, payload: Option<Fields>)
    : SemanticIntent
  {
    var t, base := lib.lower(Strings.TrimSpace(tool)), BareIntent(lib, tool, operation);
    if payload.None? then base
    else if t == "kubectl" || t == "oc" then K8sIntent(lib, base, payload.value)
    else if t == "terraform" then TerraformIntent(base, payload.value)
    else if t == "helm" then
      base.(helmNamespace := lib.lower(FirstNonEmpty(ExtractString(payload.value, "namespace"),
        ExtractString(ExtractMap(payload.value, "metadata"), "namespace"))))
    else if t == "argocd" then base.(appName := lib.lower(ExtractString(payload.value, "app_name")))
    else base
  }

  predicate IsK8sTool(lib: Library, tool: string) {
    var t := lib.lower(Strings.TrimSpace(tool));
    t == "kubectl" || t == "oc"
  }

  // ----- Keys that are read

  ghost predicate AgreeAt(a: Fields, b: Fields, k: string) {
    (k in a <==> k in b) && (k in a ==> a[k] == b[k])
  }

  /** Every lookup of a key on which two payloads agree gives the same result. */
  lemma LookupsAgree(a: Fields, b: Fields, k: string)
    requires AgreeAt(a, b, k)
    ensures ExtractString(a, k) == ExtractString(b, k) && ExtractMap(a, k) == ExtractMap(b, k)
    ensures ExtractBool(a, k) == ExtractBool(b, k) && ExtractInt(a, k) == ExtractInt(b, k)
    ensures ExtractStringSlice(a, k) == ExtractStringSlice(b, k)
  {
    hide Strings.TrimSpace, Gather;
  }

  ghost predicate AgreeOnHostFlags(a: Fields, b: Fields) {
    && AgreeAt(a, b, "host_pid") && AgreeAt(a, b, "hostPID")
    && AgreeAt(a, b, "host_ipc") && AgreeAt(a, b, "hostIPC")
    && AgreeAt(a, b, "host_network") && AgreeAt(a, b, "hostNetwork")
  }

  /** Agreement on everything read from a Kubernetes payload except its containers. */
  ghost predicate AgreeOnWorkload(a: Fields, b: Fields) {
    var metaA, metaB := ExtractMap(a, "metadata"), ExtractMap(b, "metadata");
    && AgreeAt(a, b, "namespace") && AgreeAt(a, b, "resource") && AgreeAt(a, b, "kind") && AgreeAt(a, b, "name")
    && AgreeAt(metaA, metaB, "namespace") && AgreeAt(metaA, metaB, "name")
    && AgreeOnHostFlags(a, b)
    && AgreeOnHostFlags(PodSpec(a), PodSpec(b))
    && AgreeAt(PodSpec(a), PodSpec(b), "hostPid") && AgreeAt(PodSpec(a), PodSpec(b), "hostIpc")
  }

  /** Agreement on everything read from one container. */
  ghost predicate AgreeOnContainer(x: Json, y: Json) {
    if x.Object? && y.Object? then
      var scX, scY := SecurityContext(x.fields), SecurityContext(y.fields);
      && AgreeAt(x.fields, y.fields, "image")
      && AgreeAt(scX, scY, "privileged") && AgreeAt(scX, scY, "run_as_user") && AgreeAt(scX, scY, "runAsUser")
      && AgreeAt(ExtractMap(scX, "capabilities"), ExtractMap(scY, "capabilities"), "add")
    else !x.Object? && !y.Object?
  }

  ghost predicate AgreeOnContainers(a: seq<Json>, b: seq<Json>) {
    |a| == |b| && forall i :: 0 <= i < |a| ==> AgreeOnContainer(a[i], b[i])
  }

  ghost predicate AgreeOnRule(x: Json, y: Json) {
    if x.Object? && y.Object? then AgreeAt(x.fields, y.fields, "cidr") && AgreeAt(x.fields, y.fields, "cidr_blocks")
    else !x.Object? && !y.Object?
  }

  ghost predicate AgreeOnStatement(x: Json, y: Json) {
    if x.Object? && y.Object? then AgreeAt(x.fields, y.fields, "actions") && AgreeAt(x.fields, y.fields, "Action")
    else !x.Object? && !y.Object?
  }

  ghost predicate AgreeOnTerraform(a: Fields, b: Fields) {
    var rulesA, rulesB := ExtractList(a, "security_group_rules"), ExtractList(b, "security_group_rules");
    var stmtsA, stmtsB := ExtractList(a, "iam_policy_statements"), ExtractList(b, "iam_policy_statements");
    && ExtractList(a, "resource_types") == ExtractList(b, "resource_types")
    && AgreeAt(a, b, "destroy_count")
    && |rulesA| == |rulesB| && (forall i :: 0 <= i < |rulesA| ==> AgreeOnRule(rulesA[i], rulesB[i]))
    && |stmtsA| == |stmtsB| && (forall i :: 0 <= i < |stmtsA| ==> AgreeOnStatement(stmtsA[i], stmtsB[i]))
  }

  /** Agreement, at every depth, on the keys that extraction for tool `t` reads. */
  ghost predicate AgreeOnReadKeys(t: string, a: Fields, b: Fields) {
    if t == "kubectl" || t == "oc" then
      AgreeOnWorkload(a, b) && AgreeOnContainers(AllContainers(a), AllContainers(b))
    else if t == "terraform" then AgreeOnTerraform(a, b)
    else if t == "helm" then
      AgreeAt(a, b, "namespace") && AgreeAt(ExtractMap(a, "metadata"), ExtractMap(b, "metadata"), "namespace")
    else t == "argocd" ==> AgreeAt(a, b, "app_name")
  }

  lemma HostFlagsAgree(a: Fields, b: Fields)
    requires AgreeOnHostFlags(a, b)
    ensures ExtractBool(a, "host_pid") == ExtractBool(b, "host_pid")
    ensures ExtractBool(a, "hostPID") == ExtractBool(b, "hostPID")
    ensures ExtractBool(a, "host_ipc") == ExtractBool(b, "host_ipc")
    ensures ExtractBool(a, "hostIPC") == ExtractBool(b, "hostIPC")
    ensures ExtractBool(a, "host_network") == ExtractBool(b, "host_network")
    ensures ExtractBool(a, "hostNetwork") == ExtractBool(b, "hostNetwork")
  {
    hide AgreeAt, ExtractBool;
    LookupsAgree(a, b, "host_pid");
    LookupsAgree(a, b, "hostPID");
    LookupsAgree(a, b, "host_ipc");
    LookupsAgree(a, b, "hostIPC");
    LookupsAgree(a, b, "host_network");
    LookupsAgree(a, b, "hostNetwork");
  }

  /** Items that contribute alike gather alike. */
  lemma {:induction false} GatherAlike<T>(f: Json -> seq<T>, a: seq<Json>, b: seq<Json>)
    requires |a| == |b| && forall i :: 0 <= i < |a| ==> f(a[i]) == f(b[i])
    ensures Gather(f, a) == Gather(f, b)
  {
    if a != [] { GatherAlike(f, a[..|a| - 1], b[..|b| - 1]); }
  }

  lemma ContainerAlike(lib: Library, x: Json, y: Json)
    requires AgreeOnContainer(x, y)
    ensures ImageOf(lib, x) == ImageOf(lib, y) && EntryOf(x) == EntryOf(y) && CapabilitiesOf(x) == CapabilitiesOf(y)
  {
    hide SecurityContext, ExtractStringSlice, ExtractMap, ExtractBool, ExtractInt, Strings.TrimSpace;
    if x.Object? {
      var scX, scY := SecurityContext(x.fields), SecurityContext(y.fields);
      LookupsAgree(scX, scY, "privileged");
      LookupsAgree(scX, scY, "run_as_user");
      LookupsAgree(scX, scY, "runAsUser");
      LookupsAgree(ExtractMap(scX, "capabilities"), ExtractMap(scY, "capabilities"), "add");
    }
  }

  lemma ContainersAlike(lib: Library, a: seq<Json>, b: seq<Json>)
    requires AgreeOnContainers(a, b)
    ensures Images(lib, a) == Images(lib, b) && Entries(a) == Entries(b) && Capabilities(a) == Capabilities(b)
  {
    hide AgreeOnContainer, ImageOf, EntryOf, CapabilitiesOf, Gather, Strings.Canonical, Sort;
    forall i | 0 <= i < |a|
      ensures ImageOf(lib, a[i]) == ImageOf(lib, b[i])
      ensures EntryOf(a[i]) == EntryOf(b[i]) && CapabilitiesOf(a[i]) == CapabilitiesOf(b[i])
    {
      ContainerAlike(lib, a[i], b[i]);
    }
    GatherAlike(ImageReader(lib), a, b);
    GatherAlike(EntryOf, a, b);
    GatherAlike(CapabilitiesOf, a, b);
  }

  /** Two workloads that agree outside their containers have intents that agree outside the container fields. */
  lemma WorkloadAlike(lib: Library, base: SemanticIntent, a: Fields, b: Fields)
    requires AgreeOnWorkload(a, b)
    ensures var x, y := K8sIntent(lib, base, a), K8sIntent(lib, base, b);
            y == x.(images := y.images, posture := x.posture.(privileged := y.posture.privileged,
                      runAsUser := y.posture.runAsUser, capabilities := y.posture.capabilities))
  {
    hide AgreeAt, AgreeOnHostFlags, ExtractString, ExtractMap, ExtractBool, PodSpec, AllContainers, Images, Entries,
         Capabilities, Firsts, Seconds;
    LookupsAgree(a, b, "namespace");
    LookupsAgree(a, b, "resource");
    LookupsAgree(a, b, "kind");
    LookupsAgree(a, b, "name");
    LookupsAgree(ExtractMap(a, "metadata"), ExtractMap(b, "metadata"), "namespace");
    LookupsAgree(ExtractMap(a, "metadata"), ExtractMap(b, "metadata"), "name");
    HostFlagsAgree(a, b);
    HostFlagsAgree(PodSpec(a), PodSpec(b));
    LookupsAgree(PodSpec(a), PodSpec(b), "hostPid");
    LookupsAgree(PodSpec(a), PodSpec(b), "hostIpc");
  }

  lemma TerraformAlike(base: SemanticIntent, a: Fields, b: Fields)
    requires AgreeOnTerraform(a, b)
    ensures TerraformIntent(base, a) == TerraformIntent(base, b)
  {
    hide AgreeAt, ExtractString, ExtractInt, ExtractList, ExtractStringSlice, Gather, Sort;
    LookupsAgree(a, b, "destroy_count");
    var rulesA, rulesB := ExtractList(a, "security_group_rules"), ExtractList(b, "security_group_rules");
    var stmtsA, stmtsB := ExtractList(a, "iam_policy_statements"), ExtractList(b, "iam_policy_statements");
    forall i | 0 <= i < |rulesA| ensures CidrsOf(rulesA[i]) == CidrsOf(rulesB[i]) {
      if rulesA[i].Object? && rulesB[i].Object? {
        LookupsAgree(rulesA[i].fields, rulesB[i].fields, "cidr");
        LookupsAgree(rulesA[i].fields, rulesB[i].fields, "cidr_blocks");
      }
    }
    forall i | 0 <= i < |stmtsA| ensures ActionsOf(stmtsA[i]) == ActionsOf(stmtsB[i]) {
      if stmtsA[i].Object? && stmtsB[i].Object? {
        LookupsAgree(stmtsA[i].fields, stmtsB[i].fields, "actions");
        LookupsAgree(stmtsA[i].fields, stmtsB[i].fields, "Action");
      }
    }
    GatherAlike(CidrsOf, rulesA, rulesB);
    GatherAlike(ActionsOf, stmtsA, stmtsB);
  }

  /** For every tool, keys that extraction does not read never matter, at any depth of the payload. */
  lemma OtherKeysNeverMatter(lib: Library, tool: string, operation: string, a: Fields, b: Fields)
    requires AgreeOnReadKeys(lib.lower(Strings.TrimSpace(tool)), a, b)
    ensures ExtractSemanticIntent(lib, tool, operation, Some(a)) == ExtractSemanticIntent(lib, tool, operation, Some(b))
  {
    hide Strings.TrimSpace, AgreeAt, AgreeOnWorkload, AgreeOnContainers, AgreeOnTerraform, TerraformIntent,
         ExtractString, ExtractMap, ExtractBool, PodSpec, AllContainers, Images, Entries, Capabilities, Firsts, Seconds;
    var t, base := lib.lower(Strings.TrimSpace(tool)), BareIntent(lib, tool, operation);
    if t == "kubectl" || t == "oc" {
      WorkloadAlike(lib, base, a, b);
      ContainersAlike(lib, AllContainers(a), AllContainers(b));
    } else if t == "terraform" {
      TerraformAlike(base, a, b);
    } else if t == "helm" {
      LookupsAgree(a, b, "namespace");
      LookupsAgree(ExtractMap(a, "metadata"), ExtractMap(b, "metadata"), "namespace");
    } else if t == "argocd" {
      LookupsAgree(a, b, "app_name");
    }
  }

  // ----- Order of containers

  lemma GatherSnoc<T>(f: Json -> seq<T>, a: seq<Json>, x: Json)
    ensures Gather(f, a + [x]) == Gather(f, a) + f(x)
  {
    assert (a + [x])[..|a|] == a;
  }

  lemma {:induction false} GatherConcat<T>(f: Json -> seq<T>, a: seq<Json>, b: seq<Json>)
    ensures Gather(f, a + b) == Gather(f, a) + Gather(f, b)
  {
    if b == [] {
      assert a + b == a;
    } else {
      var n := |b| - 1;
      assert b == b[..n] + [b[n]] && a + b == (a + b[..n]) + [b[n]];
      GatherConcat(f, a, b[..n]);
      GatherSnoc(f, a + b[..n], b[n]);
    }
  }

  lemma RemoveOne(a: seq<Json>, b: seq<Json>, j: nat)
    requires a != [] && j < |b| && b[j] == a[|a| - 1] && multiset(a) == multiset(b)
    ensures multiset(a[..|a| - 1]) == multiset(b[..j] + b[j + 1..])
  {
    var n := |a| - 1;
    assert a == a[..n] + [a[n]];
    assert multiset(a[..n]) == multiset(a) - multiset{a[n]};
    assert b == (b[..j] + [b[j]]) + b[j + 1..];
    assert multiset(b) == multiset(b[..j]) + multiset{b[j]} + multiset(b[j + 1..]);
    assert multiset(b[..j] + b[j + 1..]) == multiset(b[..j]) + multiset(b[j + 1..]) == multiset(b) - multiset{b[j]};
  }

  /** Reordering the items only reorders what they contribute. */
  lemma {:induction false} GatherMultiset<T>(f: Json -> seq<T>, a: seq<Json>, b: seq<Json>)
    requires multiset(a) == multiset(b)
    ensures multiset(Gather(f, a)) == multiset(Gather(f, b))
    decreases |a|
  {
    assert |a| == |multiset(a)| == |multiset(b)| == |b|;
    if a != [] {
      var n := |a| - 1;
      assert a[n] in multiset(a);
      assert a[n] in b;
      var j :| 0 <= j < |b| && b[j] == a[n];
      var b' := b[..j] + b[j + 1..];
      assert b == b[..j] + [b[j]] + b[j + 1..];
      RemoveOne(a, b, j);
      GatherMultiset(f, a[..n], b');
      GatherConcat(f, b[..j], b[j + 1..]);
      GatherConcat(f, b[..j] + [b[j]], b[j + 1..]);
      GatherSnoc(f, b[..j], b[j]);
    }
  }

  lemma SortByMultiset(a: seq<string>, b: seq<string>)
    requires multiset(a) == multiset(b)
    ensures Sort(Strings.Less, a) == Sort(Strings.Less, b)
  {
    hide Strings.Less;
    Strings.LessIsStrictOrder();
    SortSorted(Strings.Less, a);
    SortSorted(Strings.Less, b);
    SortedUnique(Strings.Less, Sort(Strings.Less, a), Sort(Strings.Less, b));
  }

  lemma {:induction false} GatherMember(f: Json -> seq<string>, containers: seq<Json>, x: string)
    ensures x in Gather(f, containers) <==> exists i :: 0 <= i < |containers| && x in f(containers[i])
  {
    if containers != [] {
      var n := |containers| - 1;
      GatherMember(f, containers[..n], x);
      if i :| 0 <= i < n && x in f(containers[..n][i]) { assert x in f(containers[i]); }
      if i :| 0 <= i < |containers| && x in f(containers[i]) {
        if i < n { assert x in f(containers[..n][i]); }
      }
    }
  }

  /** The images depend only on the set of containers. */
  lemma ImagesDependOnSet(lib: Library, a: seq<Json>, b: seq<Json>)
    requires Elements(a) == Elements(b)
    ensures Images(lib, a) == Images(lib, b)
  {
    hide Strings.Canonical, ImageOf;
    var f := ImageReader(lib);
    forall x ensures x in Gather(f, a) <==> x in Gather(f, b) {
      GatherMember(f, a, x);
      GatherMember(f, b, x);
      if i :| 0 <= i < |a| && x in f(a[i]) {
        assert a[i] in Elements(b);
        var j :| 0 <= j < |b| && b[j] == a[i];
        assert x in f(b[j]);
      }
      if i :| 0 <= i < |b| && x in f(b[i]) {
        assert b[i] in Elements(a);
        var j :| 0 <= j < |a| && a[j] == b[i];
        assert x in f(a[j]);
      }
    }
    assert Elements(Gather(f, a)) == Elements(Gather(f, b));
    Strings.CanonicalBySet(Gather(f, a), Gather(f, b));
  }

  /**
   Reordering containers leaves images and capabilities unchanged, and can only permute the
   (privileged, run-as-user) entries together.
   */
  lemma ContainerOrder(lib: Library, a: seq<Json>, b: seq<Json>)
    requires multiset(a) == multiset(b)
    ensures Images(lib, a) == Images(lib, b)
    ensures Capabilities(a) == Capabilities(b)
    ensures multiset(Entries(a)) == multiset(Entries(b))
  {
    hide Images, SortedGather;
    SameMultisetSameElements(a, b);
    ImagesDependOnSet(lib, a, b);
    SortedGatherByMultiset(CapabilitiesOf, a, b);
    GatherMultiset(EntryOf, a, b);
  }

  /**
   Two payloads with the same containers in another order, flat or native, have the same intent up to a
   common permutation of the privileged and run-as-user entries.
   */
  lemma ReorderedContainers(lib: Library, tool: string, operation: string, a: Fields, b: Fields)
    requires IsK8sTool(lib, tool)
    requires AgreeOnWorkload(a, b) && multiset(AllContainers(a)) == multiset(AllContainers(b))
    ensures var x := ExtractSemanticIntent(lib, tool, operation, Some(a));
            var y := ExtractSemanticIntent(lib, tool, operation, Some(b));
            var entriesA, entriesB := Entries(AllContainers(a)), Entries(AllContainers(b));
            && y == x.(posture := x.posture.(privileged := Firsts(entriesB), runAsUser := Seconds(entriesB)))
            && x == y.(posture := y.posture.(privileged := Firsts(entriesA), runAsUser := Seconds(entriesA)))
            && multiset(entriesA) == multiset(entriesB)
  {
    hide Strings.TrimSpace, AgreeOnWorkload, ExtractString, ExtractMap, ExtractBool, PodSpec, AllContainers, Images,
         Entries, Capabilities, Firsts, Seconds, TerraformIntent;
    var t, base := lib.lower(Strings.TrimSpace(tool)), BareIntent(lib, tool, operation);
    WorkloadAlike(lib, base, a, b);
    ContainerOrder(lib, AllContainers(a), AllContainers(b));
  }

  /** The terraform lists depend only on the multisets of their items. */
  lemma TerraformOrder(base: SemanticIntent, a: Fields, b: Fields)
    requires ExtractInt(a, "destroy_count") == ExtractInt(b, "destroy_count")
    requires multiset(ExtractList(a, "resource_types")) == multiset(ExtractList(b, "resource_types"))
    requires multiset(ExtractList(a, "security_group_rules")) == multiset(ExtractList(b, "security_group_rules"))
    requires multiset(ExtractList(a, "iam_policy_statements")) == multiset(ExtractList(b, "iam_policy_statements"))
    ensures TerraformIntent(base, a) == TerraformIntent(base, b)
  {
    hide ExtractList, SortedGather;
    SortedGatherByMultiset(TextOf, ExtractList(a, "resource_types"), ExtractList(b, "resource_types"));
    SortedGatherByMultiset(CidrsOf, ExtractList(a, "security_group_rules"), ExtractList(b, "security_group_rules"));
    SortedGatherByMultiset(ActionsOf, ExtractList(a, "iam_policy_statements"), ExtractList(b, "iam_policy_statements"));
  }

  lemma SortedGatherByMultiset(f: Json -> seq<string>, a: seq<Json>, b: seq<Json>)
    requires multiset(a) == multiset(b)
    ensures SortedGather(f, a) == SortedGather(f, b)
  {
    hide Gather, Sort;
    GatherMultiset(f, a, b);
    SortByMultiset(Gather(f, a), Gather(f, b));
  }

  lemma PairsFromHalves(a: seq<(bool, int)>, b: seq<(bool, int)>)
    requires Firsts(a) == Firsts(b) && Seconds(a) == Seconds(b)
    ensures a == b
  {
    assert |a| == |Firsts(a)| == |b|;
    forall i | 0 <= i < |a| ensures a[i] == b[i] {
      assert Firsts(a)[i] == Firsts(b)[i] && Seconds(a)[i] == Seconds(b)[i];
    }
  }

  /** Reordering containers leaves the intent alone if and only if it leaves the sequence of their entries alone. */
  lemma ReorderedExactly(lib: Library, tool: string, operation: string, a: Fields, b: Fields)
    requires IsK8sTool(lib, tool)
    requires AgreeOnWorkload(a, b) && multiset(AllContainers(a)) == multiset(AllContainers(b))
    ensures ExtractSemanticIntent(lib, tool, operation, Some(a)) == ExtractSemanticIntent(lib, tool, operation, Some(b))
      <==> Entries(AllContainers(a)) == Entries(AllContainers(b))
  {
    hide ExtractSemanticIntent, AgreeOnWorkload, AllContainers, Entries, Firsts, Seconds, IsK8sTool;
    ReorderedContainers(lib, tool, operation, a, b);
    var x := ExtractSemanticIntent(lib, tool, operation, Some(a));
    var y := ExtractSemanticIntent(lib, tool, operation, Some(b));
    if x == y { PairsFromHalves(Entries(AllContainers(a)), Entries(AllContainers(b))); }
  }

  lemma ContainersOnly(a: Fields, v: Json)
    ensures AgreeOnWorkload(a, a["containers" := v])
  {
    hide ExtractMap;
    var b := a["containers" := v];
    assert ExtractMap(b, "spec") == ExtractMap(a, "spec") by { LookupsAgree(a, b, "spec"); }
    assert ExtractMap(b, "metadata") == ExtractMap(a, "metadata") by { LookupsAgree(a, b, "metadata"); }
  }

  lemma PairEntries(x: Json, y: Json, rest: seq<Json>)
    ensures Entries([x, y] + rest) == EntryOf(x) + EntryOf(y) + Entries(rest)
  {
    hide EntryOf;
    GatherConcat(EntryOf, [x, y], rest);
    assert [x, y] == [] + [x] + [y];
    GatherSnoc(EntryOf, [] + [x], y);
    GatherSnoc(EntryOf, [], x);
    assert Gather(EntryOf, []) == [];
  }

  lemma SwappedEntries(x: Json, y: Json, rest: seq<(bool, int)>)
    ensures EntryOf(x) + EntryOf(y) + rest != EntryOf(y) + EntryOf(x) + rest
      <==> x.Object? && y.Object? && EntryOf(x) != EntryOf(y)
  {
    hide SecurityContext, ExtractBool, ExtractInt;
    var s, t := EntryOf(x) + EntryOf(y) + rest, EntryOf(y) + EntryOf(x) + rest;
    if x.Object? && y.Object? {
      assert s[0] == EntryOf(x)[0] && t[0] == EntryOf(y)[0];
    }
  }
}
