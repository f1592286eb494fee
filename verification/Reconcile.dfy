/**
  The workspace reconciler (internal/operator/workspace_controller.go): desired
  state construction, ensure, verification loop with re-apply, delete-and-recreate
  fallback, service and status.

  The API server is an object store whose calls may fail; an oracle says which.
  Reconcile is proved on every starting state of the store, so after any history
  of failed calls and of edits by others.
 */
module Reconcile {
  import opened Options
  import Strings

  // ---------------------------------------------------------------- the objects

  datatype Port = Port(name: string, number: int, protocol: string)

  datatype EnvVar = EnvVar(name: string, value: string)

  datatype Exposure = LoadBalancer | OtherExposure(kind: string)

  datatype Spec = Spec(image: string, env: seq<EnvVar>, ports: seq<Port>, exposure: Option<Exposure>)

  datatype Phase = Unset | Pending | Running | Terminating

  datatype Status = Status(ready: int, dns: string, ip: string, phase: Phase, proxyHost: string, proxyPort: int)

  datatype Workspace = Workspace(name: string, namespace: string, spec: Spec, deleting: bool, status: Status)

  /** Container-level security context: non-root, all capabilities dropped, escalation as given. */
  datatype SecCtx = SecCtx(allowEscalation: bool)

  datatype Container = Container(
    name: string, image: string, env: seq<EnvVar>, command: seq<string>, args: seq<string>,
    ports: seq<Port>, sec: Option<SecCtx>, probePort: int, livenessFailures: int)

  datatype PodSec = PodSec(user: Option<int>, group: Option<int>, fsGroup: Option<int>)

  datatype Pod = Pod(containers: seq<Container>, initContainers: seq<string>, sec: Option<PodSec>)

  type Labels = map<string, string>

  /** A deployment spec; `rest` stands for the fields this controller sets to constants. */
  datatype DepSpec = DepSpec(replicas: int, selector: Labels, podLabels: Labels, pod: Pod, rest: int)

  datatype Deployment = Deployment(spec: DepSpec, owner: Option<string>, ready: int)

  datatype SvcPort = SvcPort(name: string, port: int, targetPort: int)

  datatype SvcType = ClusterIP | LoadBalancerSvc | OtherSvc

  datatype Service = Service(
    labels: Labels, selector: Labels, ports: seq<SvcPort>, kind: SvcType,
    publishNotReady: bool, ip: string, owner: Option<string>)

  // ------------------------------------------------------------- desired state

  predicate ImageHas(spec: Spec, sub: string) {
    Strings.Contains(Strings.ToLower(spec.image), sub)
  }

  predicate IsNginx(spec: Spec) { ImageHas(spec, "nginx") }
  predicate IsCodeServer(spec: Spec) { ImageHas(spec, "code-server") }
  predicate IsAlpine(spec: Spec) { ImageHas(spec, "alpine") }

  function DesiredPorts(spec: Spec): (r: seq<Port>)
    ensures r != []
  {
    if spec.ports == [] then [Port("http", 8080, "")] else spec.ports
  }

  function NonBlank(env: seq<EnvVar>): seq<EnvVar> {
    if env == [] then []
    else NonBlank(env[..|env| - 1]) + if Strings.TrimSpace(env[|env| - 1].name) == "" then [] else [env[|env| - 1]]
  }

  predicate Named(env: seq<EnvVar>, name: string) {
    exists i :: 0 <= i < |env| && env[i].name == name
  }

  function DesiredEnv(spec: Spec): seq<EnvVar> {
    var given := NonBlank(spec.env);
    given
    + (if Named(given, "PORT") then [] else [EnvVar("PORT", "8080")])
    + (if IsCodeServer(spec) && !Named(given, "PASSWORD") then [EnvVar("PASSWORD", "changeme")] else [])
  }

  const ALPINE_LOOP := [
    "/bin/sh",
    "-c",
    "while true; do echo -e 'HTTP/1.1 200 OK\\r\\nContent-Length:2\\r\\n\\r\\nok' | nc -l -p 8080 -w 1; done"
  ]
  const CODE_SERVER_ARGS := ["--bind-addr", "0.0.0.0:8080", "--auth", "password"]

  /**
    The container as it is copied into the pod spec.  The nginx edits that follow in
    the source (image switch, cleared security context) touch the original after the
    copy was taken, so they are not part of it.
   */
  function DesiredContainer(spec: Spec): Container {
    Container("workspace", spec.image, DesiredEnv(spec),
              if IsAlpine(spec) then ALPINE_LOOP else [],
              if IsCodeServer(spec) then CODE_SERVER_ARGS else [],
              DesiredPorts(spec), Some(SecCtx(IsCodeServer(spec))),
              DesiredPorts(spec)[0].number, if IsAlpine(spec) then 3 else 4)
  }

  /** The image the verification compares with: taken from the edited original. */
  function CheckedImage(spec: Spec): string {
    if IsNginx(spec) && !ImageHas(spec, "unprivileged") then "nginxinc/nginx-unprivileged:1.25" else spec.image
  }

  function DesiredPodSec(spec: Spec): PodSec {
    var id := if IsNginx(spec) then 101 else 1000;
    PodSec(Some(id), Some(id), Some(id))
  }

  function WorkspaceLabels(name: string): Labels {
    map["guildnet.io/workspace" := name]
  }

  function Desired(name: string, spec: Spec): DepSpec {
    DepSpec(1, WorkspaceLabels(name), WorkspaceLabels(name),
            Pod([DesiredContainer(spec)], ["workspace-init"], Some(DesiredPodSec(spec))), 0)
  }

  function ServicePorts(ports: seq<Port>): (r: seq<SvcPort>)
    ensures |r| == |ports|
    ensures forall i :: 0 <= i < |ports| ==> r[i] == SvcPort(ports[i].name, ports[i].number, ports[i].number)
  {
    seq(|ports|, i requires 0 <= i < |ports| => SvcPort(ports[i].name, ports[i].number, ports[i].number))
  }

  function ServiceKind(spec: Spec, defaultLB: bool): SvcType {
    if spec.exposure == Some(LoadBalancer) then LoadBalancerSvc
    else if spec.exposure.None? && defaultLB then LoadBalancerSvc
    else ClusterIP
  }

  function DesiredService(name: string, spec: Spec, defaultLB: bool, ip: string): Service {
    Service(WorkspaceLabels(name), WorkspaceLabels(name), ServicePorts(DesiredPorts(spec)),
            ServiceKind(spec, defaultLB), true, ip, Some(name))
  }

  // ------------------------------------------------ what the desired state is

  /** The image mentions the word, in any case. */
  lemma ImageKinds(spec: Spec)
    ensures var image := Strings.ToLower(spec.image);
            && (IsNginx(spec) <==> exists a: string, b: string :: image == a + "nginx" + b)
            && (IsCodeServer(spec) <==> exists a: string, b: string :: image == a + "code-server" + b)
            && (IsAlpine(spec) <==> exists a: string, b: string :: image == a + "alpine" + b)
            && (ImageHas(spec, "unprivileged") <==> exists a: string, b: string :: image == a + "unprivileged" + b)
  {
    hide Strings.Contains;
    var image := Strings.ToLower(spec.image);
    Strings.ContainsExactly(image, "nginx");
    Strings.ContainsExactly(image, "code-server");
    Strings.ContainsExactly(image, "alpine");
    Strings.ContainsExactly(image, "unprivileged");
  }

  /** NonBlank keeps the variables with a name, each in its place. */
  lemma NonBlankSnoc(env: seq<EnvVar>, e: EnvVar)
    ensures NonBlank([]) == []
    ensures NonBlank(env + [e]) == NonBlank(env) + if Strings.Blank(e.name) then [] else [e]
  {
    assert (env + [e])[..|env|] == env;
    var _, _ := Strings.TrimExactly(e.name);
  }

  lemma {:induction false} NonBlankMembers(env: seq<EnvVar>, e: EnvVar)
    ensures e in NonBlank(env) <==> e in env && !Strings.Blank(e.name)
  {
    hide Strings.Blank;
    if env != [] {
      var init, last := env[..|env| - 1], env[|env| - 1];
      assert env == init + [last];
      NonBlankMembers(init, e);
      NonBlankSnoc(init, last);
    }
  }

  lemma NamedMembers(env: seq<EnvVar>, name: string)
    ensures Named(env, name) <==> exists e :: e in env && e.name == name
  {
    if e :| e in env && e.name == name {
      var i :| 0 <= i < |env| && env[i] == e;
    }
  }

  /**
    The environment of the container: the given variables that have a name, in their
    order, then a PORT of 8080 exactly when none is given, and for code-server a
    PASSWORD exactly when none is given.
   */
  lemma EnvironmentIs(spec: Spec)
    ensures var env, given := DesiredEnv(spec), NonBlank(spec.env);
            && |given| <= |env| <= |given| + 2 && env[..|given|] == given
            && (forall e :: e in spec.env && !Strings.Blank(e.name) ==> e in env)
            && (forall e :: e in env[|given|..] ==> e == EnvVar("PORT", "8080") || e == EnvVar("PASSWORD", "changeme"))
            && (EnvVar("PORT", "8080") in env[|given|..] <==> forall e :: e in spec.env ==> e.name != "PORT")
            && (EnvVar("PASSWORD", "changeme") in env[|given|..] <==>
                  IsCodeServer(spec) && forall e :: e in spec.env ==> e.name != "PASSWORD")
  {
    hide IsCodeServer, NonBlank, Named, Strings.Blank;
    var env, given := DesiredEnv(spec), NonBlank(spec.env);
    forall e ensures e in given <==> e in spec.env && !Strings.Blank(e.name) { NonBlankMembers(spec.env, e); }
    NamedMembers(given, "PORT");
    NamedMembers(given, "PASSWORD");
    NotBlank();
    assert env[|given|..] == (if Named(given, "PORT") then [] else [EnvVar("PORT", "8080")])
        + (if IsCodeServer(spec) && !Named(given, "PASSWORD") then [EnvVar("PASSWORD", "changeme")] else []);
  }

  lemma NotBlank()
    ensures !Strings.Blank("PORT") && !Strings.Blank("PASSWORD")
  {
    assert !Strings.IsSpace("PORT"[0]) && !Strings.IsSpace("PASSWORD"[0]);
  }

  /** One replica of one container, with the ports asked for or 8080, probed on the first of them. */
  lemma DeploymentIs(name: string, spec: Spec)
    ensures var d := Desired(name, spec);
            && d.podLabels == map["guildnet.io/workspace" := name]
            && d.replicas == 1 && d.pod.initContainers == ["workspace-init"] && |d.pod.containers| == 1
            && var c := d.pod.containers[0];
            && c.name == "workspace" && c.image == spec.image && c.env == DesiredEnv(spec)
            && (if spec.ports == [] then c.ports == [Port("http", 8080, "")] else c.ports == spec.ports)
            && c.ports != [] && c.probePort == c.ports[0].number
            && (IsAlpine(spec) ==> |c.command| == 3 && c.command[..2] == ["/bin/sh", "-c"] && c.livenessFailures == 3)
            && (!IsAlpine(spec) ==> c.command == [] && c.livenessFailures == 4)
            && c.args == (if IsCodeServer(spec) then ["--bind-addr", "0.0.0.0:8080", "--auth", "password"] else [])
  {
    hide ImageHas, DesiredEnv;
  }

  /** Who the pod runs as: uid, gid and fsGroup 101 for nginx, else 1000; only code-server may escalate. */
  lemma SecurityIs(name: string, spec: Spec)
    ensures var p := Desired(name, spec).pod;
            && p.sec == Some(if IsNginx(spec) then PodSec(Some(101), Some(101), Some(101))
                             else PodSec(Some(1000), Some(1000), Some(1000)))
            && |p.containers| == 1 && p.containers[0].sec == Some(SecCtx(IsCodeServer(spec)))
  {
    hide ImageHas, DesiredEnv, DesiredPorts;
  }

  /** The service: a load balancer when asked for, or by default when nothing is said. */
  lemma ServiceIs(name: string, spec: Spec, defaultLB: bool, ip: string)
    ensures var s := DesiredService(name, spec, defaultLB, ip);
            && s.owner == Some(name) && s.ip == ip && s.publishNotReady
            && s.labels == map["guildnet.io/workspace" := name]
            && (s.kind == LoadBalancerSvc <==>
                  spec.exposure == Some(LoadBalancer) || (spec.exposure == None && defaultLB))
            && (s.kind != LoadBalancerSvc ==> s.kind == ClusterIP)
  {}

  /** A selector picks the pods that have all its labels. */
  predicate Selects(selector: Labels, labels: Labels) {
    forall k :: k in selector ==> k in labels && labels[k] == selector[k]
  }

  /** The service and the deployment of a workspace select its own pods and no other workspace's. */
  lemma SelectsOwnPodsOnly(name: string, spec: Spec, other: string, otherSpec: Spec, defaultLB: bool, ip: string)
    ensures var pods := Desired(other, otherSpec).podLabels;
            && (Selects(DesiredService(name, spec, defaultLB, ip).selector, pods) <==> name == other)
            && (Selects(Desired(name, spec).selector, pods) <==> name == other)
  {
    assert "guildnet.io/workspace" in WorkspaceLabels(name);
  }

  // ------------------------------------------------------------ as code

  /** The env loop of Reconcile. */
  method BuildEnv(spec: Spec) returns (env: seq<EnvVar>)
    ensures env == DesiredEnv(spec)
  {
    env := [];
    for i := 0 to |spec.env|
      invariant env == NonBlank(spec.env[..i])
    {
      assert spec.env[..i + 1][..i] == spec.env[..i];
      if Strings.TrimSpace(spec.env[i].name) != "" {
        env := env + [spec.env[i]];
      }
    }
    assert spec.env[..|spec.env|] == spec.env;
    var hasPort, hasPassword := Named(env, "PORT"), Named(env, "PASSWORD");
    if !hasPort {
      env := env + [EnvVar("PORT", "8080")];
    }
    if IsCodeServer(spec) && !hasPassword {
      env := env + [EnvVar("PASSWORD", "changeme")];
    }
  }

  /**
    The construction of the desired deployment, in the order of the source: the pod
    spec takes its copy of the container first, the nginx edits come after.
   */
  method BuildDesired(name: string, spec: Spec) returns (want: DepSpec, checkedImage: string)
    ensures want == Desired(name, spec)
    ensures checkedImage == CheckedImage(spec)
  {
    hide IsNginx, IsCodeServer, IsAlpine, ImageHas;
    var ports: seq<Port> := [];
    for i := 0 to |spec.ports|
      invariant ports == spec.ports[..i]
    {
      ports := ports + [Port(spec.ports[i].name, spec.ports[i].number, spec.ports[i].protocol)];
    }
    assert spec.ports[..|spec.ports|] == spec.ports;
    if |ports| == 0 {
      ports := [Port("http", 8080, "")];
    }
    var env := BuildEnv(spec);
    var sec := SecCtx(false);
    if IsCodeServer(spec) {
      sec := SecCtx(true);
    }
    var c := Container("workspace", spec.image, env, if IsAlpine(spec) then ALPINE_LOOP else [],
                       if IsCodeServer(spec) then CODE_SERVER_ARGS else [], ports, Some(sec),
                       ports[0].number, if IsAlpine(spec) then 3 else 4);
    var id := if IsNginx(spec) then 101 else 1000;
    var pod := Pod([c], ["workspace-init"], Some(PodSec(Some(id), Some(id), Some(id))));
    if IsNginx(spec) {
      if !ImageHas(spec, "unprivileged") {
        c := c.(image := "nginxinc/nginx-unprivileged:1.25");
      }
      c := c.(sec := None);
    }
    want := DepSpec(1, WorkspaceLabels(name), WorkspaceLabels(name), pod, 0);
    checkedImage := c.image;
  }

  // --------------------------------------------------------------- verification

  /** The first container called "workspace". */
  function FindWorkspace(cs: seq<Container>): Option<Container> {
    if cs == [] then None
    else if cs[0].name == "workspace" then Some(cs[0])
    else FindWorkspace(cs[1..])
  }

  /** What the verification loop accepts in a live deployment. */
  predicate Passes(live: DepSpec, spec: Spec) {
    && live.pod.initContainers != []
    && live.pod.sec == Some(DesiredPodSec(spec))
    && var c := FindWorkspace(live.pod.containers);
       && c.Some? && c.value.image == CheckedImage(spec)
       && (if IsNginx(spec) then c.value.sec.None? else c.value.sec.Some?)
  }

  lemma {:induction false} FindsFirst(cs: seq<Container>)
    ensures var c := FindWorkspace(cs);
            if c.Some? then exists i :: IsFirstWorkspace(cs, i) && cs[i] == c.value
            else forall i :: 0 <= i < |cs| ==> cs[i].name != "workspace"
  {
    if cs != [] && cs[0].name == "workspace" {
      assert IsFirstWorkspace(cs, 0);
    } else if cs != [] {
      FindsFirst(cs[1..]);
      var c := FindWorkspace(cs);
      if c.Some? {
        var i :| IsFirstWorkspace(cs[1..], i) && cs[1..][i] == c.value;
        assert IsFirstWorkspace(cs, i + 1);
      }
    }
  }

  predicate IsFirstWorkspace(cs: seq<Container>, i: int) {
    0 <= i < |cs| && cs[i].name == "workspace" && forall j :: 0 <= j < i ==> cs[j].name != "workspace"
  }

  /** The first container called "workspace" has the image and the security context that are checked for. */
  predicate ContainerPasses(cs: seq<Container>, i: int, spec: Spec) {
    && IsFirstWorkspace(cs, i)
    && (if IsNginx(spec)
        then && cs[i].sec == None
             && cs[i].image == if ImageHas(spec, "unprivileged") then spec.image
                               else "nginxinc/nginx-unprivileged:1.25"
        else cs[i].sec.Some? && cs[i].image == spec.image)
  }

  /** What the verification demands of a live deployment, check by check. */
  lemma VerificationDemands(live: DepSpec, spec: Spec)
    ensures Passes(live, spec) <==>
              && live.pod.initContainers != []
              && live.pod.sec == Some(if IsNginx(spec) then PodSec(Some(101), Some(101), Some(101))
                                      else PodSec(Some(1000), Some(1000), Some(1000)))
              && exists i :: ContainerPasses(live.pod.containers, i, spec)
  {
    hide ImageHas, FindWorkspace;
    var cs := live.pod.containers;
    FindsFirst(cs);
    forall i | IsFirstWorkspace(cs, i) ensures FindWorkspace(cs) == Some(cs[i]) {
      var j :| IsFirstWorkspace(cs, j) && Some(cs[j]) == FindWorkspace(cs);
      assert i == j;
    }
    if Passes(live, spec) {
      var i :| IsFirstWorkspace(cs, i);
      assert ContainerPasses(cs, i, spec);
    }
  }

  method Verify(live: DepSpec, spec: Spec, checkedImage: string) returns (needFix: bool)
    requires checkedImage == CheckedImage(spec)
    ensures needFix <==> !Passes(live, spec)
  {
    needFix := false;
    if |live.pod.initContainers| == 0 {
      needFix := true;
    }
    var want := DesiredPodSec(spec);
    if live.pod.sec.None? {
      needFix := true;
    } else {
      var sc := live.pod.sec.value;
      if want.user != sc.user || want.group != sc.group || want.fsGroup != sc.fsGroup {
        needFix := true;
      }
    }
    var found := false;
    var cs := live.pod.containers;
    var i := 0;
    while i < |cs| && !found
      invariant 0 <= i <= |cs|
      invariant !found ==> FindWorkspace(cs) == FindWorkspace(cs[i..])
      invariant found ==> FindWorkspace(cs).Some?
      invariant needFix <==> live.pod.initContainers == [] || live.pod.sec != Some(want)
                             || (found && var c := FindWorkspace(cs).value;
                                          || c.image != CheckedImage(spec)
                                          || (if IsNginx(spec) then c.sec.Some? else c.sec.None?))
      decreases |cs| - i, !found
    {
      var c := cs[i];
      assert cs[i..][0] == c && cs[i..][1..] == cs[i + 1..];
      if c.name == "workspace" {
        found := true;
        if c.image != checkedImage {
          needFix := true;
        }
        if IsNginx(spec) {
          if c.sec.Some? { needFix := true; }
        } else {
          if c.sec.None? { needFix := true; }
        }
      } else {
        i := i + 1;
      }
    }
    if !found {
      assert cs[i..] == [];
      needFix := true;
    }
  }

  /**
    The applied spec satisfies the verification exactly for images that are not
    nginx: for nginx the check expects the edits that never reach the pod spec.
   */
  lemma DesiredPassesUnlessNginx(name: string, spec: Spec)
    ensures Passes(Desired(name, spec), spec) <==> !IsNginx(spec)
  {
    hide IsNginx, ImageHas, DesiredEnv, DesiredPorts;
    assert FindWorkspace([DesiredContainer(spec)]) == Some(DesiredContainer(spec));
  }

  // ------------------------------------------------------------- the API server

  const VERIFY_ATTEMPTS := 5
  const DELETE_POLLS := 20

  datatype Outcome = Done | Requeue | Gone

  /** The store as Reconcile sees it: one workspace with its deployment and service. */
  class Cluster {
    var ws: Option<Workspace>
    var dep: Option<Deployment>
    var svc: Option<Service>
    // which calls fail, and how many calls have been made
    var faults: seq<bool>
    var clock: nat
    // what has happened: Deletes issued, failed calls and re-applies in the verification loop
    var deletes: nat
    var verifyFaults: nat
    var reapplies: nat

    predicate Fails(i: nat)
      reads this`faults
    {
      i < |faults| && faults[i]
    }

    predicate Works(from: nat, n: nat)
      reads this`faults
    {
      forall i: nat :: from <= i < from + n ==> !Fails(i)
    }

    predicate Breaks(from: nat, n: nat)
      reads this`faults
    {
      forall i: nat :: from <= i < from + n ==> Fails(i)
    }

    predicate WorksFrom(from: nat)
      reads this`faults
    {
      forall i: nat :: from <= i < |faults| ==> !Fails(i)
    }

    /** No call from now on fails. */
    predicate Calm()
      reads this
    {
      WorksFrom(clock)
    }

    /**
      The workspace has no deployment; the calls that create one work, the five Gets
      of the verification fail, and the Delete and everything after it work.
     */
    predicate BadSpell(start: nat)
      reads this`dep, this`faults
    {
      dep.None? && Works(start, 5) && Breaks(start + 5, 5) && WorksFrom(start + 10)
    }

    /** One API call: whether it fails. */
    method CallFails() returns (f: bool)
      modifies this`clock
      ensures f <==> Fails(old(clock))
      ensures clock == old(clock) + 1
      ensures old(Calm()) ==> !f && Calm()
    {
      f := Fails(clock);
      clock := clock + 1;
    }

    /** Get, then Create or Update with the desired spec; a Create writes a resource version into the object sent. */
    method EnsureDeployment(name: string, want: DepSpec) returns (ok: bool, versioned: bool)
      modifies this`clock, this`dep
      ensures ok ==> (versioned <==> old(dep).None?)
      ensures old(Calm()) ==> ok && Calm()
      ensures old(Works(clock, 2)) ==> ok && clock == old(clock) + 2
      ensures ok ==>
                dep == Some(if old(dep).Some? then old(dep).value.(spec := want) else Deployment(want, Some(name), 0))
      ensures !ok ==> dep == old(dep)
    {
      var f := CallFails();
      if f {
        return false, false;
      }
      if dep.None? {
        f := CallFails();
        if f {
          return false, false;
        }
        dep := Some(Deployment(want, Some(name), 0));
        return true, true;
      }
      f := CallFails();
      if f {
        return false, false;
      }
      dep := Some(dep.value.(spec := want));
      return true, false;
    }

    /** Sets the owner reference on the live deployment; a failure is only logged. */
    method AdoptDeployment(name: string)
      requires dep.Some?
      modifies this`clock, this`dep
      ensures old(Calm()) ==> Calm()
      ensures old(Works(clock, 2)) && old(dep).value.owner == Some(name) ==> clock == old(clock) + 2
      ensures dep.Some? && dep.value == old(dep).value.(owner := dep.value.owner)
      ensures dep == old(dep) || (old(dep).value.owner.None? && dep.value.owner == Some(name))
      ensures old(Calm()) && old(dep).value.owner.None? ==> dep.value.owner == Some(name)
    {
      var f := CallFails();
      if f {
        return;
      }
      if dep.value.owner.Some? && dep.value.owner.value != name {
        return;
      }
      f := CallFails();
      if f {
        return;
      }
      dep := Some(dep.value.(owner := Some(name)));
    }

    /** Get and Update with the desired spec, inside the verification loop. */
    method Reapply(want: DepSpec) returns (err: bool)
      requires dep.Some?
      modifies this`clock, this`dep, this`reapplies, this`verifyFaults
      ensures old(Calm()) ==> Calm() && !err
      ensures dep == if err then old(dep) else Some(old(dep).value.(spec := want))
      ensures verifyFaults == old(verifyFaults) + (if err then 1 else 0)
      ensures reapplies == old(reapplies) + 1
    {
      reapplies := reapplies + 1;
      err := CallFails();
      if !err {
        err := CallFails();
      }
      if err {
        verifyFaults := verifyFaults + 1;
        return;
      }
      dep := Some(dep.value.(spec := want));
    }

    /**
      The verification loop.  It ends in an error exactly when some call in it
      failed and no attempt found the deployment in order.
     */
    method VerifyLoop(want: DepSpec, checkedImage: string, ghost name: string, spec: Spec)
      returns (finalErr: bool, passed: bool)
      requires dep.Some? && want == Desired(name, spec) && checkedImage == CheckedImage(spec)
      modifies this`clock, this`dep, this`reapplies, this`verifyFaults
      ensures old(Calm()) ==> Calm() && verifyFaults == old(verifyFaults)
      ensures dep == old(dep) || dep == Some(old(dep).value.(spec := Desired(name, spec)))
      ensures verifyFaults >= old(verifyFaults)
      ensures finalErr <==> verifyFaults > old(verifyFaults) && !passed
      ensures passed ==> Passes(dep.value.spec, spec)
      ensures old(Breaks(clock, 5)) ==> finalErr && dep == old(dep) && clock == old(clock) + 5
      ensures old(Calm()) && old(dep).value.spec == Desired(name, spec) ==>
                reapplies == old(reapplies) + if IsNginx(spec) then 5 else 0
    {
      DesiredPassesUnlessNginx(name, spec);
      hide Desired, Passes, IsNginx;
      finalErr, passed := false, false;
      var attempt := 0;
      while attempt < VERIFY_ATTEMPTS
        invariant attempt <= VERIFY_ATTEMPTS && !passed
        invariant old(Calm()) ==> Calm() && verifyFaults == old(verifyFaults)
        invariant dep == old(dep) || dep == Some(old(dep).value.(spec := want))
        invariant verifyFaults >= old(verifyFaults)
        invariant finalErr <==> verifyFaults > old(verifyFaults)
        invariant old(Breaks(clock, VERIFY_ATTEMPTS)) ==>
                    clock == old(clock) + attempt && dep == old(dep) && (attempt > 0 ==> finalErr)
        invariant old(Calm()) && old(dep).value.spec == want ==>
                    reapplies == old(reapplies) + attempt && (attempt > 0 ==> IsNginx(spec))
      {
        attempt := attempt + 1;
        var f := CallFails();
        if f {
          finalErr := true;
          verifyFaults := verifyFaults + 1;
          continue;
        }
        var needFix := Verify(dep.value.spec, spec, checkedImage);
        if !needFix {
          finalErr, passed := false, true;
          break;
        }
        var err := Reapply(want);
        if err {
          finalErr := true;
        }
      }
    }

    /**
      The fallback: delete, wait a while, create anew.  An object that carries the
      resource version of an earlier Create is refused, so what this run created and
      then deletes is not created again in this run.
     */
    method Recreate(name: string, want: DepSpec, versioned: bool)
      modifies this`clock, this`dep, this`deletes
      ensures deletes == old(deletes) + 1
      ensures dep == old(dep) || dep.None? || dep == Some(Deployment(want, Some(name), 0))
      ensures versioned ==> dep == old(dep) || dep.None?
      ensures versioned && old(dep).Some? ==> (dep.None? <==> !Fails(old(clock)))
      ensures clock <= old(clock) + 22
      ensures old(dep).Some? && !Fails(old(clock)) && Breaks(old(clock) + 1, 20) ==> clock == old(clock) + 22
      ensures old(Calm()) ==> Calm()
      ensures old(Calm()) ==> dep == if versioned then None else Some(Deployment(want, Some(name), 0))
    {
      deletes := deletes + 1;
      var f := CallFails();
      if !f && dep.Some? {
        dep := None;
        var i := 0;
        while i < DELETE_POLLS
          invariant i <= DELETE_POLLS && clock == old(clock) + 1 + i
          invariant dep.None? && (old(Calm()) ==> Calm()) && deletes == old(deletes) + 1
        {
          f := CallFails();
          if !f {
            break;
          }
          i := i + 1;
        }
      }
      f := CallFails();
      if f || versioned || dep.Some? {
        return;
      }
      dep := Some(Deployment(want, Some(name), 0));
    }

    /** CreateOrUpdate of the service; it fails when another controller owns the service. */
    method EnsureService(name: string, spec: Spec, defaultLB: bool) returns (ok: bool)
      modifies this`clock, this`svc
      ensures old(Calm()) ==> Calm()
      ensures ok ==>
                svc == Some(DesiredService(name, spec, defaultLB, if old(svc).Some? then old(svc).value.ip else ""))
      ensures !ok ==> svc == old(svc)
      ensures old(Calm()) ==>
                (ok <==> old(svc).None? || old(svc).value.owner.None? || old(svc).value.owner.value == name)
    {
      var f := CallFails();
      if f {
        return false;
      }
      if svc.None? {
        f := CallFails();
        if f {
          return false;
        }
        svc := Some(DesiredService(name, spec, defaultLB, ""));
        return true;
      }
      if svc.value.owner.Some? && svc.value.owner.value != name {
        return false;
      }
      if svc.value == DesiredService(name, spec, defaultLB, svc.value.ip) {
        // nothing to update
        return true;
      }
      f := CallFails();
      if f {
        return false;
      }
      svc := Some(DesiredService(name, spec, defaultLB, svc.value.ip));
      return true;
    }

    /** Re-reads the workspace and writes its status; the spec is left alone. */
    method UpdateStatus(name: string, namespace: string, ready: int, port: int, ip: string) returns (ok: bool)
      requires ws.Some?
      modifies this`clock, this`ws
      ensures old(Calm()) ==> ok && Calm()
      ensures ws.Some? && ws.value == old(ws).value.(status := ws.value.status)
      ensures ok ==> ws.value.status.proxyHost == name + "." + namespace + ".svc" && ws.value.status.proxyPort == port
      ensures ok ==> ws.value.status.ready == ready && ws.value.status.dns == name + "." + namespace + ".svc"
      ensures ok ==> ws.value.status.ip == if ip != "" then ip else old(ws).value.status.ip
      ensures ok ==>
                ws.value.status.phase
                == if ws.value.deleting then Terminating else if ready > 0 then Running else Pending
      ensures !ok ==> ws == old(ws)
    {
      var f := CallFails();
      if f {
        return false;
      }
      var w := ws.value;
      var dns := name + "." + namespace + ".svc";
      var phase := if w.deleting then Terminating else if ready > 0 then Running else Pending;
      var ip' := if ip != "" then ip else w.status.ip;
      f := CallFails();
      if f {
        return false;
      }
      ws := Some(w.(status := Status(ready, dns, ip', phase, dns, port)));
      return true;
    }

    /** The service may be taken over by this workspace. */
    predicate ServiceFree()
      reads this
    {
      svc.None? || svc.value.owner.None? || (ws.Some? && svc.value.owner.value == ws.value.name)
    }

    /** Deployment, service and status say what the workspace asks for. */
    predicate Converged(defaultLB: bool)
      reads this
    {
      && ws.Some? && dep.Some? && svc.Some?
      && var w := ws.value;
      && dep.value.spec == Desired(w.name, w.spec)
      && svc.value == DesiredService(w.name, w.spec, defaultLB, svc.value.ip)
      && w.status.proxyHost == w.name + "." + w.namespace + ".svc"
      && w.status.proxyPort == DesiredPorts(w.spec)[0].number
    }

    /** The deployment part of Reconcile, up to the fallback. */
    method ReconcileDeployment(name: string, spec: Spec) returns (ok: bool, ready: int)
      modifies this`clock, this`dep, this`reapplies, this`verifyFaults, this`deletes
      ensures old(Calm()) ==> ok && Calm() && deletes == old(deletes)
      ensures old(Calm()) ==> dep.Some? && dep.value.spec == Desired(name, spec)
      ensures old(Calm()) ==> reapplies == old(reapplies) + if IsNginx(spec) then 5 else 0
      ensures dep.None? || (old(dep).Some? && dep.value.spec == old(dep).value.spec)
              || dep.value.spec == Desired(name, spec)
      ensures deletes > old(deletes) ==> verifyFaults > old(verifyFaults)
      ensures deletes <= old(deletes) + 1
      ensures dep.None? && old(dep).Some? ==> deletes == old(deletes) + 1
      ensures old(dep.None? && Works(clock, 5) && Breaks(clock + 5, 5)) ==>
                ok && deletes == old(deletes) + 1 && (dep.None? <==> !Fails(old(clock) + 10))
      ensures old(BadSpell(clock)) ==> ok && dep.None? && deletes == old(deletes) + 1 && Calm()
      ensures old(Calm()) ==>
                dep.value.owner
                == if old(dep).Some? && old(dep).value.owner.Some? then old(dep).value.owner else Some(name)
      ensures deletes == old(deletes) && old(dep).Some? && old(dep).value.owner.Some? ==>
                dep.Some? && dep.value.owner == old(dep).value.owner
    {
      hide Desired, IsNginx, CheckedImage, Passes;
      ready := 0;
      var want, checkedImage := BuildDesired(name, spec);
      var versioned;
      ok, versioned := EnsureDeployment(name, want);
      if !ok {
        return;
      }
      var f := CallFails();
      if f {
        ok := false;
        return;
      }
      ready := dep.value.ready;
      AdoptDeployment(name);
      var finalErr, passed := VerifyLoop(want, checkedImage, name, spec);
      if finalErr {
        Recreate(name, want, versioned);
      }
    }

    /**
      Reconcile.  From any state of the store, a run without failing calls converges
      (unless another controller owns the service, which stops it there), with five
      re-applies for nginx images and none otherwise.  In every run, the deployment
      spec is the old one, the desired one or gone, the workspace spec is untouched,
      the service is the old one or the desired one at its old address, a Delete is
      issued only after a failed call in the verification loop, and without one the
      owner of the deployment does not change once it is set.  After a bad spell in
      the verification of a deployment that this run created, the fallback deletes it
      and cannot create it again, and Reconcile reports success without a deployment.
     */
    method Reconcile(defaultLB: bool) returns (r: Outcome)
      modifies this
      ensures r == Gone ==> old(ws).None?
      ensures old(ws).None? ==> r != Done && dep == old(dep) && svc == old(svc) && deletes == old(deletes)
      ensures old(Calm() && ws.None?) ==> r == Gone
      ensures ws.Some? <==> old(ws).Some?
      ensures ws.Some? ==>
                ws.value.spec == old(ws).value.spec && ws.value.name == old(ws).value.name
                && ws.value.namespace == old(ws).value.namespace
      ensures old(Calm() && ws.Some? && ServiceFree()) ==> r == Done && Converged(defaultLB) && Calm() && ServiceFree()
      ensures old(Calm() && ws.Some?) ==>
                dep.Some? && dep.value.spec == Desired(ws.value.name, ws.value.spec) && deletes == old(deletes)
      ensures old(Calm() && ws.Some?) ==>
                reapplies == old(reapplies) + if IsNginx(ws.value.spec) then 5 else 0
      ensures dep.None? || (old(dep).Some? && dep.value.spec == old(dep).value.spec)
              || (ws.Some? && dep.value.spec == Desired(ws.value.name, ws.value.spec))
      ensures svc == old(svc) || (ws.Some? && svc == Some(DesiredService(ws.value.name, ws.value.spec, defaultLB,
                                                           if old(svc).Some? then old(svc).value.ip else "")))
      ensures deletes > old(deletes) ==> verifyFaults > old(verifyFaults)
      ensures deletes <= old(deletes) + 1
      ensures dep.None? && old(dep).Some? ==> deletes == old(deletes) + 1
      ensures old(Calm() && ws.Some?) ==>
                dep.value.owner
                == if old(dep).Some? && old(dep).value.owner.Some? then old(dep).value.owner else Some(ws.value.name)
      ensures deletes == old(deletes) && old(dep).Some? && old(dep).value.owner.Some? ==>
                dep.Some? && dep.value.owner == old(dep).value.owner
      ensures old(ws.Some? && ServiceFree() && !Fails(clock) && BadSpell(clock + 1)) ==>
                r == Done && dep.None? && svc.Some? && deletes == old(deletes) + 1
    {
      hide Desired, ServicePorts, ServiceKind, WorkspaceLabels, DesiredPorts, IsNginx;
      hide BadSpell, Works, Breaks, WorksFrom;
      var f := CallFails();
      if f {
        return Requeue;
      }
      if ws.None? {
        return Gone;
      }
      var w := ws.value;
      var ok, ready := ReconcileDeployment(w.name, w.spec);
      if !ok {
        return Requeue;
      }
      ok := EnsureService(w.name, w.spec, defaultLB);
      if !ok {
        return Requeue;
      }
      ok := UpdateStatus(w.name, w.namespace, ready, DesiredPorts(w.spec)[0].number, svc.value.ip);
      if !ok {
        return Requeue;
      }
      return Done;
    }

    /** A second undisturbed Reconcile changes no spec. */
    method ReconcileTwice(defaultLB: bool) returns (r: Outcome, dep1: Option<Deployment>, svc1: Option<Service>)
      requires Calm() && ws.Some? && ServiceFree()
      modifies this
      ensures r == Done && dep1.Some? && dep.Some? && dep.value.spec == dep1.value.spec && svc == svc1
      ensures Converged(defaultLB)
    {
      hide Desired, ServicePorts, ServiceKind, WorkspaceLabels, DesiredPorts;
      r := Reconcile(defaultLB);
      dep1, svc1 := dep, svc;
      r := Reconcile(defaultLB);
    }
  }

  /**
    What convergence means for traffic: the service selects the deployment's pods,
    its ports are the container's ports one to one, and the proxy target is the
    first of them.
   */
  lemma ConvergedRoutesTraffic(name: string, spec: Spec, defaultLB: bool, ip: string)
    ensures var d, s := Desired(name, spec), DesiredService(name, spec, defaultLB, ip);
            var c := FindWorkspace(d.pod.containers);
            && s.selector == d.podLabels == d.selector
            && c.Some? && |s.ports| == |c.value.ports| && s.ports != []
            && (forall i :: 0 <= i < |s.ports| ==> s.ports[i].port == s.ports[i].targetPort == c.value.ports[i].number)
            && s.ports[0].port == DesiredPorts(spec)[0].number == c.value.probePort
  {
    hide DesiredEnv, ImageHas;
    assert FindWorkspace([DesiredContainer(spec)]) == Some(DesiredContainer(spec));
  }
}
