/**
 Kubernetes workloads as clients send them: as a flat payload, or as a native Deployment, Pod or CronJob; and which
 of these have the same intent (pkg/mcpserver/intent.go:73-129).
 */
module Workloads {
  import opened Wrappers
  import opened Sorting
  import opened Intent
  import Strings

  /** A workload, independent of the payload that carries it; `C` is how its containers are given. */
  datatype Workload<C> = Workload(namespace: string, kind: string, name: string, containers: seq<C>,
    initContainers: seq<C>, hostPID: bool, hostIPC: bool, hostNetwork: bool)

  // ----- Payloads

  function FlatPayload(w: Workload<Json>): Fields {
    map["namespace" := Text(w.namespace), "resource" := Text(w.kind), "name" := Text(w.name),
        "containers" := List(w.containers), "init_containers" := List(w.initContainers),
        "host_pid" := Bool(w.hostPID), "host_ipc" := Bool(w.hostIPC), "host_network" := Bool(w.hostNetwork)]
  }

  function NativePodSpec(w: Workload<Json>): Fields {
    map["containers" := List(w.containers), "initContainers" := List(w.initContainers),
        "hostPID" := Bool(w.hostPID), "hostIPC" := Bool(w.hostIPC), "hostNetwork" := Bool(w.hostNetwork)]
  }

  /**
   Where a native object keeps its pod spec: under a template (as Deployments, and StatefulSets, DaemonSets and Jobs
   alike), directly, or under the template of a job.
   */
  datatype Shape = Deployment | Pod | CronJob

  function Template(pod: Fields): Fields {
    map["template" := Object(map["spec" := Object(pod)])]
  }

  function NativeSpec(w: Workload<Json>, shape: Shape): Fields {
    match shape
    case Deployment => Template(NativePodSpec(w))
    case Pod => NativePodSpec(w)
    case CronJob => map["jobTemplate" := Object(map["spec" := Object(Template(NativePodSpec(w)))])]
  }

  function NativePayload(w: Workload<Json>, shape: Shape): Fields {
    map["kind" := Text(w.kind),
        "metadata" := Object(map["namespace" := Text(w.namespace), "name" := Text(w.name)]),
        "spec" := Object(NativeSpec(w, shape))]
  }

  // ----- What extraction makes of them

  function Containers<C>(w: Workload<C>): seq<C> {
    w.containers + w.initContainers
  }

  /** The intent of a workload, read off the workload. */
  function IntentOf(lib: Library, base: SemanticIntent, w: Workload<Json>): SemanticIntent {
    var entries := Entries(Containers(w));
    base.(
      namespace := lib.lower(Strings.TrimSpace(w.namespace)),
      kind := lib.lower(Strings.TrimSpace(w.kind)),
      name := lib.lower(Strings.TrimSpace(w.name)),
      images := Images(lib, Containers(w)),
      posture := Posture(Firsts(entries), Seconds(entries), w.hostPID, w.hostIPC, w.hostNetwork,
        Capabilities(Containers(w))))
  }

  /** The workload without anything its pod spec says. */
  function NameOnly<C>(w: Workload<C>): Workload<C> {
    w.(containers := [], initContainers := [], hostPID := false, hostIPC := false, hostNetwork := false)
  }

  lemma FlatNames(w: Workload<Json>)
    ensures var p := FlatPayload(w);
            && ExtractString(p, "namespace") == Strings.TrimSpace(w.namespace)
            && ExtractString(p, "resource") == Strings.TrimSpace(w.kind) && "kind" !in p
            && ExtractString(p, "name") == Strings.TrimSpace(w.name) && "metadata" !in p && "spec" !in p
            && PodSpec(p) == map[]
  {
    hide Strings.TrimSpace;
  }

  lemma FlatFields(w: Workload<Json>)
    ensures var p := FlatPayload(w);
            && ExtractList(p, "containers") == w.containers && ExtractList(p, "init_containers") == w.initContainers
            && ExtractBool(p, "host_pid") == w.hostPID && ExtractBool(p, "host_ipc") == w.hostIPC
            && ExtractBool(p, "host_network") == w.hostNetwork
            && "hostPID" !in p && "hostIPC" !in p && "hostNetwork" !in p
  {
  }

  lemma FlatContainers(w: Workload<Json>)
    ensures AllContainers(FlatPayload(w)) == Containers(w)
  {
    hide FlatPayload, PodSpec;
    FlatNames(w);
    FlatFields(w);
  }

  lemma FlatIntent(lib: Library, base: SemanticIntent, w: Workload<Json>)
    ensures K8sIntent(lib, base, FlatPayload(w)) == IntentOf(lib, base, w)
  {
    hide FlatPayload, PodSpec, AllContainers, Strings.TrimSpace, Images, Entries, Capabilities, Firsts, Seconds;
    FlatNames(w);
    FlatFields(w);
    FlatContainers(w);
  }

  lemma NativeFields(w: Workload<Json>, shape: Shape)
    ensures var p := NativePayload(w, shape);
            && "namespace" !in p && "name" !in p && "resource" !in p && "containers" !in p && "init_containers" !in p
            && "host_pid" !in p && "host_ipc" !in p && "host_network" !in p
            && "hostPID" !in p && "hostIPC" !in p && "hostNetwork" !in p
            && ExtractString(p, "kind") == Strings.TrimSpace(w.kind)
            && ExtractString(ExtractMap(p, "metadata"), "namespace") == Strings.TrimSpace(w.namespace)
            && ExtractString(ExtractMap(p, "metadata"), "name") == Strings.TrimSpace(w.name)
            && ExtractMap(p, "spec") == NativeSpec(w, shape)
  {
    hide Strings.TrimSpace, NativeSpec;
  }

  /** Extraction finds the pod spec of a Deployment only. */
  lemma FoundPodSpec(w: Workload<Json>, shape: Shape)
    ensures PodSpec(NativePayload(w, shape)) == if shape.Deployment? then NativePodSpec(w) else map[]
  {
    hide NativePayload;
    NativeFields(w, shape);
    var spec := NativeSpec(w, shape);
    if shape.Deployment? {
      hide NativePodSpec;
      assert ExtractMap(spec, "template") == map["spec" := Object(NativePodSpec(w))];
    } else {
      assert "template" !in spec;
    }
  }

  lemma NativeSpecFields(w: Workload<Json>)
    ensures var s := NativePodSpec(w);
            && ExtractList(s, "containers") == w.containers && ExtractList(s, "initContainers") == w.initContainers
            && "init_containers" !in s
            && ExtractBool(s, "hostPID") == w.hostPID && "host_pid" !in s && "hostPid" !in s
            && ExtractBool(s, "hostIPC") == w.hostIPC && "host_ipc" !in s && "hostIpc" !in s
            && ExtractBool(s, "hostNetwork") == w.hostNetwork && "host_network" !in s
  {
  }

  /** A native payload has the intent of its workload, or of the bare name when its pod spec is not found. */
  lemma NativeIntent(lib: Library, base: SemanticIntent, w: Workload<Json>, shape: Shape)
    ensures K8sIntent(lib, base, NativePayload(w, shape))
         == IntentOf(lib, base, if shape.Deployment? then w else NameOnly(w))
  {
    hide NativePayload, PodSpec, NativePodSpec, NativeSpec, Strings.TrimSpace, Images, Entries, Capabilities,
         Firsts, Seconds;
    NativeFields(w, shape);
    FoundPodSpec(w, shape);
    NativeSpecFields(w);
    var read := if shape.Deployment? then w else NameOnly(w);
    assert AllContainers(NativePayload(w, shape)) == Containers(read);
  }

  lemma FlatExtracts(lib: Library, tool: string, operation: string, w: Workload<Json>)
    requires IsK8sTool(lib, tool)
    ensures ExtractSemanticIntent(lib, tool, operation, Some(FlatPayload(w)))
         == IntentOf(lib, BareIntent(lib, tool, operation), w)
  {
    hide K8sIntent, IntentOf, FlatPayload, Strings.TrimSpace;
    FlatIntent(lib, BareIntent(lib, tool, operation), w);
  }

  lemma NativeExtracts(lib: Library, tool: string, operation: string, w: Workload<Json>, shape: Shape)
    requires IsK8sTool(lib, tool)
    ensures ExtractSemanticIntent(lib, tool, operation, Some(NativePayload(w, shape)))
         == IntentOf(lib, BareIntent(lib, tool, operation), if shape.Deployment? then w else NameOnly(w))
  {
    hide K8sIntent, IntentOf, NativePayload, Strings.TrimSpace;
    NativeIntent(lib, BareIntent(lib, tool, operation), w, shape);
  }

  // ----- Containers as data

  datatype Security = Security(privileged: bool, user: Option<int>, add: seq<string>)

  datatype Container = Container(image: string, security: Option<Security>)

  /** The two spellings of the keys inside a container. */
  datatype Spelling = Snake | Camel

  function Texts(s: seq<string>): seq<Json> {
    seq(|s|, i requires 0 <= i < |s| => Text(s[i]))
  }

  function SpellSecurity(s: Security, spelling: Spelling): Fields {
    var fields: Fields := map["privileged" := Bool(s.privileged),
                              "capabilities" := Object(map["add" := List(Texts(s.add))])];
    if s.user.None? then fields
    else fields[(if spelling.Snake? then "run_as_user" else "runAsUser") := Number(s.user.value)]
  }

  function SpellContainer(c: Container, spelling: Spelling): Json {
    var fields: Fields := map["image" := Text(c.image)];
    if c.security.None? then Object(fields)
    else Object(fields[(if spelling.Snake? then "security_context" else "securityContext") :=
                         Object(SpellSecurity(c.security.value, spelling))])
  }

  function SpellAll(cs: seq<Container>, spelling: Spelling): (s: seq<Json>)
    ensures |s| == |cs| && forall i :: 0 <= i < |s| ==> s[i] == SpellContainer(cs[i], spelling)
  {
    seq(|cs|, i requires 0 <= i < |cs| => SpellContainer(cs[i], spelling))
  }

  function Spell(w: Workload<Container>, spelling: Spelling): Workload<Json> {
    Workload(w.namespace, w.kind, w.name, SpellAll(w.containers, spelling), SpellAll(w.initContainers, spelling),
      w.hostPID, w.hostIPC, w.hostNetwork)
  }

  /** What policy sees of a container. */
  function EntryFrom(c: Container): (bool, int) {
    match c.security
    case None => (false, -1)
    case Some(s) => (s.privileged, if s.user.Some? then s.user.value else -1)
  }

  function AddedBy(c: Container): seq<string> {
    if c.security.Some? then c.security.value.add else []
  }

  lemma {:induction false} GatherTexts(s: seq<string>)
    ensures Gather(TextOf, Texts(s)) == s
  {
    if s != [] {
      var n := |s| - 1;
      GatherTexts(s[..n]);
      assert Texts(s)[..n] == Texts(s[..n]) && s == s[..n] + [s[n]];
    }
  }

  lemma SecurityReads(s: Security, spelling: Spelling)
    ensures var sc := SpellSecurity(s, spelling);
            && ExtractBool(sc, "privileged") == s.privileged
            && ExtractStringSlice(ExtractMap(sc, "capabilities"), "add") == s.add
            && ExtractInt(sc, "run_as_user") == (if spelling.Snake? then s.user else None)
            && ExtractInt(sc, "runAsUser") == (if spelling.Camel? then s.user else None)
  {
    hide Gather, Texts;
    GatherTexts(s.add);
  }

  lemma ContextReads(c: Container, spelling: Spelling)
    ensures SecurityContext(SpellContainer(c, spelling).fields)
         == if c.security.Some? then SpellSecurity(c.security.value, spelling) else map[]
  {
    hide SpellSecurity;
  }

  /** Both spellings of a container are read as the container. */
  lemma ContainerReads(lib: Library, c: Container, spelling: Spelling)
    ensures var json := SpellContainer(c, spelling);
            && EntryOf(json) == [EntryFrom(c)]
            && CapabilitiesOf(json) == AddedBy(c)
            && ImageOf(lib, json) == (
                 var image := lib.lower(Strings.TrimSpace(c.image));
                 if image == "" || image == "<nil>" then [] else [image])
  {
    hide SecurityContext, SpellSecurity, ExtractStringSlice, ExtractBool, ExtractInt, ExtractMap, Strings.TrimSpace;
    ContextReads(c, spelling);
    if c.security.Some? {
      SecurityReads(c.security.value, spelling);
    } else {
      EmptyReads();
    }
  }

  lemma EmptyReads()
    ensures !ExtractBool(map[], "privileged") && ExtractMap(map[], "capabilities") == map[]
    ensures ExtractInt(map[], "run_as_user") == None && ExtractInt(map[], "runAsUser") == None
    ensures ExtractStringSlice(map[], "add") == []
  {
  }

  /** A container that uses both spellings is read in snake case. */
  lemma SnakeGoesFirst(image: string, snake: Security, camel: Security, snakeUser: int, camelUser: int)
    ensures var both: Fields := map["image" := Text(image),
                                    "security_context" := Object(SpellSecurity(snake, Snake)),
                                    "securityContext" := Object(SpellSecurity(camel, Camel))];
            SecurityContext(both) == SpellSecurity(snake, Snake)
    ensures var users: Fields := map["run_as_user" := Number(snakeUser), "runAsUser" := Number(camelUser)];
            EntryOf(Object(map["security_context" := Object(users)])) == [(false, snakeUser)]
  {
    hide SpellSecurity;
    var users: Fields := map["run_as_user" := Number(snakeUser), "runAsUser" := Number(camelUser)];
    var fields: Fields := map["security_context" := Object(users)];
    assert SecurityContext(fields) == users;
  }

  /** The spelling of the containers does not reach the intent. */
  lemma SpellingIsInvisible(lib: Library, base: SemanticIntent, w: Workload<Container>, s: Spelling, t: Spelling)
    ensures IntentOf(lib, base, Spell(w, s)) == IntentOf(lib, base, Spell(w, t))
  {
    hide ImageOf, EntryOf, CapabilitiesOf, Gather, SpellContainer, Strings.Canonical, Sort, Strings.TrimSpace,
         Firsts, Seconds;
    var a, b := Containers(Spell(w, s)), Containers(Spell(w, t));
    forall i | 0 <= i < |a|
      ensures ImageOf(lib, a[i]) == ImageOf(lib, b[i])
      ensures EntryOf(a[i]) == EntryOf(b[i]) && CapabilitiesOf(a[i]) == CapabilitiesOf(b[i])
    {
      var c := Containers(w)[i];
      assert a[i] == SpellContainer(c, s) && b[i] == SpellContainer(c, t);
      ContainerReads(lib, c, s);
      ContainerReads(lib, c, t);
    }
    GatherAlike(ImageReader(lib), a, b);
    GatherAlike(EntryOf, a, b);
    GatherAlike(CapabilitiesOf, a, b);
  }

  /** The images of a workload are the normalised images of its containers, strictly sorted. */
  lemma ImagesOfContainers(lib: Library, cs: seq<Container>, spelling: Spelling)
    ensures StrictlySorted(Strings.Less, Images(lib, SpellAll(cs, spelling)))
    ensures forall x :: x in Images(lib, SpellAll(cs, spelling)) <==> Uses(lib, cs, x)
  {
    hide Images, SpellContainer, ShowsImage, ImageOf, Strings.Less, Strings.TrimSpace;
    var json := SpellAll(cs, spelling);
    ImagesExactly(lib, json);
    forall x, i | 0 <= i < |cs|
      ensures ShowsImage(lib, json[i], x) <==> x != "" && x != "<nil>" && lib.lower(Strings.TrimSpace(cs[i].image)) == x
    {
      ContainerReads(lib, cs[i], spelling);
      ImageShown(lib, json[i], x);
    }
  }

  /** Some container runs image `x`. */
  ghost predicate Uses(lib: Library, cs: seq<Container>, x: string) {
    x != "" && x != "<nil>" && exists i :: 0 <= i < |cs| && lib.lower(Strings.TrimSpace(cs[i].image)) == x
  }

  /** Workloads that run different images have different intents. */
  lemma DifferentImagesDiffer(lib: Library, base: SemanticIntent, a: Workload<Container>, b: Workload<Container>,
    s: Spelling, t: Spelling, x: string)
    requires Uses(lib, Containers(a), x) && !Uses(lib, Containers(b), x)
    ensures IntentOf(lib, base, Spell(a, s)) != IntentOf(lib, base, Spell(b, t))
  {
    hide Images, Uses, SpellContainer, Strings.TrimSpace, Entries, Capabilities, Firsts, Seconds, Strings.Less;
    assert Containers(Spell(a, s)) == SpellAll(Containers(a), s);
    assert Containers(Spell(b, t)) == SpellAll(Containers(b), t);
    ImagesOfContainers(lib, Containers(a), s);
    ImagesOfContainers(lib, Containers(b), t);
    var x1, x2 := IntentOf(lib, base, Spell(a, s)), IntentOf(lib, base, Spell(b, t));
    assert x in x1.images && x !in x2.images;
  }

  // ----- Payloads that carry both forms

  /** Flat fields win where they say something; host flags add up. */
  function Combined(w: Workload<Json>, v: Workload<Json>): Workload<Json> {
    Workload(
      if Strings.TrimSpace(w.namespace) != "" then w.namespace else v.namespace,
      if Strings.TrimSpace(w.kind) != "" then w.kind else v.kind,
      if Strings.TrimSpace(w.name) != "" then w.name else v.name,
      if w.containers != [] then w.containers else v.containers,
      if w.initContainers != [] then w.initContainers else v.initContainers,
      w.hostPID || v.hostPID, w.hostIPC || v.hostIPC, w.hostNetwork || v.hostNetwork)
  }

  function BothForms(w: Workload<Json>, v: Workload<Json>): Fields {
    FlatPayload(w) + NativePayload(v, Deployment)
  }

  lemma OnlyFlat(w: Workload<Json>, v: Workload<Json>, k: string)
    requires k != "kind" && k != "metadata" && k != "spec"
    ensures AgreeAt(BothForms(w, v), FlatPayload(w), k)
    ensures ExtractList(BothForms(w, v), k) == ExtractList(FlatPayload(w), k)
  {
    hide FlatPayload, NativeSpec;
  }

  lemma FlatPart(w: Workload<Json>, v: Workload<Json>)
    ensures var p, flat := BothForms(w, v), FlatPayload(w);
            && AgreeAt(p, flat, "namespace") && AgreeAt(p, flat, "resource") && AgreeAt(p, flat, "name")
            && ExtractList(p, "containers") == w.containers && ExtractList(p, "init_containers") == w.initContainers
            && AgreeAt(p, flat, "host_pid") && AgreeAt(p, flat, "host_ipc") && AgreeAt(p, flat, "host_network")
            && "hostPID" !in p && "hostIPC" !in p && "hostNetwork" !in p
  {
    hide FlatPayload, BothForms, ExtractList;
    FlatFields(w);
    OnlyFlat(w, v, "namespace");
    OnlyFlat(w, v, "resource");
    OnlyFlat(w, v, "name");
    OnlyFlat(w, v, "containers");
    OnlyFlat(w, v, "init_containers");
    OnlyFlat(w, v, "host_pid");
    OnlyFlat(w, v, "host_ipc");
    OnlyFlat(w, v, "host_network");
    OnlyFlat(w, v, "hostPID");
    OnlyFlat(w, v, "hostIPC");
    OnlyFlat(w, v, "hostNetwork");
  }

  lemma NativePart(w: Workload<Json>, v: Workload<Json>)
    ensures var p, native := BothForms(w, v), NativePayload(v, Deployment);
            && AgreeAt(p, native, "kind") && AgreeAt(p, native, "metadata") && AgreeAt(p, native, "spec")
  {
  }

  lemma BothNames(w: Workload<Json>, v: Workload<Json>)
    ensures var p := BothForms(w, v);
            && ExtractString(p, "namespace") == Strings.TrimSpace(w.namespace)
            && ExtractString(p, "resource") == Strings.TrimSpace(w.kind)
            && ExtractString(p, "kind") == Strings.TrimSpace(v.kind)
            && ExtractString(p, "name") == Strings.TrimSpace(w.name)
            && ExtractString(ExtractMap(p, "metadata"), "namespace") == Strings.TrimSpace(v.namespace)
            && ExtractString(ExtractMap(p, "metadata"), "name") == Strings.TrimSpace(v.name)
  {
    hide Strings.TrimSpace, AgreeAt, ExtractString, ExtractMap, FlatPayload, NativePayload, BothForms, PodSpec,
         NativeSpec;
    var p, flat, native := BothForms(w, v), FlatPayload(w), NativePayload(v, Deployment);
    FlatPart(w, v);
    NativePart(w, v);
    FlatNames(w);
    NativeFields(v, Deployment);
    LookupsAgree(p, flat, "namespace");
    LookupsAgree(p, flat, "resource");
    LookupsAgree(p, flat, "name");
    LookupsAgree(p, native, "kind");
    LookupsAgree(p, native, "metadata");
  }

  lemma BothPodSpecs(w: Workload<Json>, v: Workload<Json>)
    ensures PodSpec(BothForms(w, v)) == NativePodSpec(v)
  {
    hide AgreeAt, ExtractMap, FlatPayload, NativePayload, BothForms, NativePodSpec;
    NativePart(w, v);
    FoundPodSpec(v, Deployment);
    LookupsAgree(BothForms(w, v), NativePayload(v, Deployment), "spec");
  }

  lemma BothFlags(w: Workload<Json>, v: Workload<Json>)
    ensures var p := BothForms(w, v);
            && ExtractBool(p, "host_pid") == w.hostPID && ExtractBool(p, "host_ipc") == w.hostIPC
            && ExtractBool(p, "host_network") == w.hostNetwork
            && !ExtractBool(p, "hostPID") && !ExtractBool(p, "hostIPC") && !ExtractBool(p, "hostNetwork")
  {
    hide AgreeAt, FlatPayload, BothForms;
    var p, flat := BothForms(w, v), FlatPayload(w);
    FlatPart(w, v);
    FlatFields(w);
    LookupsAgree(p, flat, "host_pid");
    LookupsAgree(p, flat, "host_ipc");
    LookupsAgree(p, flat, "host_network");
  }

  /** A payload in both forms: names and container lists are taken from the flat part first, flags from either. */
  lemma BothFormsIntent(lib: Library, base: SemanticIntent, w: Workload<Json>, v: Workload<Json>)
    ensures K8sIntent(lib, base, BothForms(w, v)) == IntentOf(lib, base, Combined(w, v))
  {
    hide ExtractString, ExtractMap, ExtractBool, ExtractList, FlatPayload, NativePayload, BothForms, PodSpec,
         NativePodSpec, Strings.TrimSpace, Images, Entries, Capabilities, Firsts, Seconds;
    BothNames(w, v);
    BothPodSpecs(w, v);
    BothFlags(w, v);
    FlatPart(w, v);
    NativeSpecFields(v);
    SpecFlags(v);
    assert AllContainers(BothForms(w, v)) == Containers(Combined(w, v)) by { MissingList(NativePodSpec(v)); }
  }

  lemma SpecFlags(v: Workload<Json>)
    ensures var s := NativePodSpec(v);
            !ExtractBool(s, "host_pid") && !ExtractBool(s, "hostPid") && !ExtractBool(s, "host_ipc")
            && !ExtractBool(s, "hostIpc") && !ExtractBool(s, "host_network")
  {
    NativeSpecFields(v);
  }

  lemma MissingList(m: Fields)
    ensures "init_containers" !in m ==> ExtractList(m, "init_containers") == []
  {
  }

  /** The keys under which a host flag is honoured, on the payload and in the pod spec. */
  lemma HostFlagKeys(lib: Library, base: SemanticIntent, payload: Fields)
    ensures var posture, spec := K8sIntent(lib, base, payload).posture, PodSpec(payload);
            && (posture.hostPID <==>
                  || On(payload, "host_pid") || On(payload, "hostPID")
                  || On(spec, "host_pid") || On(spec, "hostPID") || On(spec, "hostPid"))
            && (posture.hostIPC <==>
                  || On(payload, "host_ipc") || On(payload, "hostIPC")
                  || On(spec, "host_ipc") || On(spec, "hostIPC") || On(spec, "hostIpc"))
            && (posture.hostNetwork <==>
                  || On(payload, "host_network") || On(payload, "hostNetwork")
                  || On(spec, "host_network") || On(spec, "hostNetwork"))
  {
    hide ExtractString, ExtractMap, AllContainers, PodSpec, Images, Entries, Capabilities, Strings.TrimSpace;
  }

  predicate On(m: Fields, key: string) {
    key in m && m[key] == Bool(true)
  }

  /** Init containers in a pod spec may also be spelled in snake case; the camel-case list goes first. */
  lemma InitContainerKeys(w: Workload<Json>, snake: seq<Json>)
    ensures var spec := NativePodSpec(w)["init_containers" := List(snake)];
            var payload: Fields := map["spec" := Object(Template(spec))];
            AllContainers(payload) == w.containers + if w.initContainers != [] then w.initContainers else snake
  {
    var spec := NativePodSpec(w)["init_containers" := List(snake)];
    var payload: Fields := map["spec" := Object(Template(spec))];
    assert PodSpec(payload) == spec;
    assert ExtractList(spec, "containers") == w.containers;
    assert ExtractList(spec, "initContainers") == w.initContainers && ExtractList(spec, "init_containers") == snake;
    assert ExtractList(payload, "containers") == [] && ExtractList(payload, "init_containers") == [];
  }

  // ----- Flat against native

  lemma {:induction false} NoEntries(containers: seq<Json>)
    ensures Entries(containers) == [] <==> forall i :: 0 <= i < |containers| ==> !containers[i].Object?
  {
    hide SecurityContext;
    if containers != [] { NoEntries(containers[..|containers| - 1]); }
  }

  lemma {:induction false} GatherNothing<T>(f: Json -> seq<T>, items: seq<Json>)
    requires forall i :: 0 <= i < |items| ==> f(items[i]) == []
    ensures Gather(f, items) == []
  {
    if items != [] { GatherNothing(f, items[..|items| - 1]); }
  }

  /** A workload about which there is nothing to say but its name. */
  ghost predicate SaysNothing(w: Workload<Json>) {
    && !w.hostPID && !w.hostIPC && !w.hostNetwork
    && forall i :: 0 <= i < |Containers(w)| ==> !Containers(w)[i].Object?
  }

  lemma NothingToRead(lib: Library, containers: seq<Json>)
    requires forall i :: 0 <= i < |containers| ==> !containers[i].Object?
    ensures Images(lib, containers) == Images(lib, []) && Capabilities(containers) == Capabilities([])
    ensures Entries(containers) == Entries([])
  {
    hide Strings.Canonical, Sort;
    GatherNothing(ImageReader(lib), containers);
    GatherNothing(EntryOf, containers);
    GatherNothing(CapabilitiesOf, containers);
  }

  lemma NameOnlyExactly(lib: Library, base: SemanticIntent, w: Workload<Json>)
    ensures IntentOf(lib, base, w) == IntentOf(lib, base, NameOnly(w)) <==> SaysNothing(w)
  {
    hide Images, Capabilities, Entries, Strings.TrimSpace;
    var all := Containers(w);
    NoEntries(all);
    NoEntries([]);
    assert Containers(NameOnly(w)) == [];
    if SaysNothing(w) { NothingToRead(lib, all); }
    if IntentOf(lib, base, w) == IntentOf(lib, base, NameOnly(w)) {
      assert |Firsts(Entries(all))| == |Firsts(Entries([]))|;
    }
  }

  /**
   For kubectl and oc, with containers in the same JSON: flat and native payload have the same intent if and only if
   the native object is a Deployment, or there is nothing in its pod spec that extraction could have missed.
   */
  lemma ShapesAgreeExactly(lib: Library, tool: string, operation: string, w: Workload<Json>, shape: Shape)
    requires IsK8sTool(lib, tool)
    ensures ExtractSemanticIntent(lib, tool, operation, Some(FlatPayload(w)))
         == ExtractSemanticIntent(lib, tool, operation, Some(NativePayload(w, shape)))
      <==> shape.Deployment? || SaysNothing(w)
  {
    hide ExtractSemanticIntent, IntentOf, FlatPayload, NativePayload, SaysNothing, IsK8sTool, BareIntent;
    FlatExtracts(lib, tool, operation, w);
    NativeExtracts(lib, tool, operation, w, shape);
    NameOnlyExactly(lib, BareIntent(lib, tool, operation), w);
  }

  lemma SpelledSaysNothing(w: Workload<Container>, spelling: Spelling)
    ensures SaysNothing(Spell(w, spelling))
      <==> !w.hostPID && !w.hostIPC && !w.hostNetwork && Containers(w) == []
  {
    var json := Containers(Spell(w, spelling));
    if Containers(w) != [] { assert json[0] == SpellContainer(Containers(w)[0], spelling); }
  }

  /**
   For kubectl and oc, and whichever spelling the containers of either payload use: a workload has the same intent in
   flat and in native form if and only if the native object is a Deployment, or the workload has neither containers
   nor host flags.
   */
  lemma FlatAndNativeAgree(lib: Library, tool: string, operation: string, w: Workload<Container>, flat: Spelling,
    native: Spelling, shape: Shape)
    requires IsK8sTool(lib, tool)
    ensures ExtractSemanticIntent(lib, tool, operation, Some(FlatPayload(Spell(w, flat))))
         == ExtractSemanticIntent(lib, tool, operation, Some(NativePayload(Spell(w, native), shape)))
      <==> shape.Deployment? || (!w.hostPID && !w.hostIPC && !w.hostNetwork && Containers(w) == [])
  {
    hide ExtractSemanticIntent, IntentOf, FlatPayload, NativePayload, SaysNothing, IsK8sTool, BareIntent, Spell;
    FlatExtracts(lib, tool, operation, Spell(w, flat));
    FlatExtracts(lib, tool, operation, Spell(w, native));
    SpellingIsInvisible(lib, BareIntent(lib, tool, operation), w, flat, native);
    ShapesAgreeExactly(lib, tool, operation, Spell(w, native), shape);
    SpelledSaysNothing(w, native);
  }

  /**
   All Pods, and all CronJobs, of one name have one intent, whatever their containers and host flags: a denied
   privileged Pod and its corrected version share the key of the deny cache.
   */
  lemma PodsLookAlike(lib: Library, tool: string, operation: string, a: Workload<Json>, b: Workload<Json>,
    s: Shape, t: Shape)
    requires IsK8sTool(lib, tool) && !s.Deployment? && !t.Deployment?
    requires a.namespace == b.namespace && a.kind == b.kind && a.name == b.name
    ensures ExtractSemanticIntent(lib, tool, operation, Some(NativePayload(a, s)))
         == ExtractSemanticIntent(lib, tool, operation, Some(NativePayload(b, t)))
  {
    hide ExtractSemanticIntent, IntentOf, NativePayload, IsK8sTool, BareIntent;
    NativeExtracts(lib, tool, operation, a, s);
    NativeExtracts(lib, tool, operation, b, t);
    assert NameOnly(a) == NameOnly(b);
  }

  // ----- Order of the containers of a workload

  /** Two orders of the same workload agree on everything but the containers. */
  lemma FlatAgree(w: Workload<Json>, containers: seq<Json>)
    ensures AgreeOnWorkload(FlatPayload(w), FlatPayload(w.(containers := containers)))
  {
    hide AgreeOnWorkload;
    assert FlatPayload(w.(containers := containers)) == FlatPayload(w)["containers" := List(containers)];
    ContainersOnly(FlatPayload(w), List(containers));
  }

  /**
   Swapping two containers of any workload changes its intent if and only if both are objects with different
   privileged or run-as-user entries.
   */
  lemma SwapIsVisible(lib: Library, tool: string, operation: string, w: Workload<Json>, x: Json, y: Json)
    requires IsK8sTool(lib, tool)
    ensures var a := FlatPayload(w.(containers := [x, y] + w.containers));
            var b := FlatPayload(w.(containers := [y, x] + w.containers));
            ExtractSemanticIntent(lib, tool, operation, Some(a)) != ExtractSemanticIntent(lib, tool, operation, Some(b))
            <==> x.Object? && y.Object? && EntryOf(x) != EntryOf(y)
  {
    hide ExtractSemanticIntent, AgreeOnWorkload, FlatPayload, AllContainers, IsK8sTool, Gather;
    var wa, wb := w.(containers := [x, y] + w.containers), w.(containers := [y, x] + w.containers);
    var rest := Containers(w);
    FlatAgree(wa, wb.containers);
    FlatContainers(wa);
    FlatContainers(wb);
    assert Containers(wa) == [x, y] + rest && Containers(wb) == [y, x] + rest;
    assert multiset([x, y] + rest) == multiset([y, x] + rest);
    PairEntries(x, y, rest);
    PairEntries(y, x, rest);
    ReorderedExactly(lib, tool, operation, FlatPayload(wa), FlatPayload(wb));
    SwappedEntries(x, y, Entries(rest));
  }
}
