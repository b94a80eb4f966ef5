/** The deploy driver: building a plan, checking it, and executing it. */
module DeployPlan {
  import opened Prelude

  datatype Kind = Preflight | Migrate | Start | Drain | Cutover | Teardown

  datatype Step = Step(name: string, service: string, kind: Kind, argv: seq<string>)

  datatype Strategy = Rolling | BlueGreen

  datatype PlanError = UnknownStrategy | NotExclusive(service: string)

  const EXCLUSIVE_SERVICES := ["worker", "bot"]
  const DEFAULT_PROJECT := "cloud-platform-staging"
  const ENV_ARGS := ["--env-file", ".env"]

  // -- building -----------------------------------------------------------

  /** An empty project name counts as none. */
  function Compose(project: Option<string>, args: seq<string>): seq<string> {
    ["docker", "compose"]
    + (if project.Some? && project.value != "" then ["-p", project.value] else [])
    + args
  }

  function On(file: string, args: seq<string>): seq<string> {
    ["-f", file] + ENV_ARGS + args
  }

  function StopStep(name: string, kind: Kind, project: Option<string>, file: string, service: string): Step {
    Step(name, service, kind, Compose(project, On(file, ["stop", "--timeout", "30", service])))
  }

  function WaitStep(name: string, project: Option<string>, file: string, service: string): Step {
    Step(name, service, Drain, Compose(project, On(file, ["ps", "--status", "running", service])))
  }

  function UpStep(name: string, kind: Kind, tag: string, project: Option<string>, file: string,
                  flags: seq<string>, service: string): Step {
    Step(name, tag, kind, Compose(project, On(file, ["up", "-d"] + flags + ["--wait", service])))
  }

  function Prologue(project: Option<string>, file: string): seq<Step> {
    [Step("validate compose file", "", Preflight, Compose(project, On(file, ["config", "--quiet"]))),
     UpStep("apply migrations", Migrate, "", project, file, [], "migrate")]
  }

  function RollBlock(project: Option<string>, file: string, service: string): seq<Step> {
    [StopStep("drain " + service + " (SIGTERM, wait exit)", Drain, project, file, service),
     WaitStep("wait " + service + " fully stopped", project, file, service),
     UpStep("start " + service + " (new image)", Start, service, project, file, ["--no-deps"], service)]
  }

  function RollBlocks(project: Option<string>, file: string, services: seq<string>): seq<Step> {
    if services == [] then []
    else
      var last := |services| - 1;
      RollBlocks(project, file, services[..last]) + RollBlock(project, file, services[last])
  }

  function DrainBlock(project: Option<string>, file: string, service: string): seq<Step> {
    [StopStep("drain blue " + service, Drain, project, file, service),
     WaitStep("wait blue " + service + " fully stopped", project, file, service)]
  }

  function DrainBlocks(project: Option<string>, file: string, services: seq<string>): seq<Step> {
    if services == [] then []
    else
      var last := |services| - 1;
      DrainBlocks(project, file, services[..last]) + DrainBlock(project, file, services[last])
  }

  function GreenStart(green: string, file: string, service: string): Step {
    UpStep("start green " + service, Start, service, Some(green), file, [], service)
  }

  function GreenStarts(green: string, file: string, services: seq<string>): seq<Step> {
    if services == [] then []
    else
      var last := |services| - 1;
      GreenStarts(green, file, services[..last]) + [GreenStart(green, file, services[last])]
  }

  function BlueName(project: Option<string>): string {
    if project.Some? && project.value != "" then project.value else DEFAULT_PROJECT
  }

  function GreenName(project: Option<string>): string {
    BlueName(project) + "-green"
  }

  function PlanFor(strategy: Strategy, project: Option<string>, file: string, services: seq<string>): seq<Step> {
    match strategy
    case Rolling =>
      Prologue(project, file)
      + [UpStep("roll api (health-gated)", Start, "api", project, file, ["--no-deps"], "api")]
      + RollBlocks(project, file, services)
    case BlueGreen =>
      var green := GreenName(project);
      Prologue(project, file)
      + [UpStep("start green api", Start, "api", Some(green), file, [], "api")]
      + DrainBlocks(project, file, services)
      + [StopStep("cut traffic over to green", Cutover, project, file, "api")]
      + GreenStarts(green, file, services)
      + [Step("retire blue api container", "api", Teardown, Compose(project, On(file, ["rm", "--force", "-v", "api"])))]
  }

  function ParseStrategy(name: string): Option<Strategy> {
    if name == "rolling" then Some(Rolling) else if name == "blue-green" then Some(BlueGreen) else None
  }

  lemma StrategiesAre(name: string)
    ensures ParseStrategy(name) == Some(Rolling) <==> name == "rolling"
    ensures ParseStrategy(name) == Some(BlueGreen) <==> name == "blue-green"
  {
    assert |"rolling"| != |"blue-green"|;
  }

  // -- word by word -----------------------------------------------------------

  /** The command line up to the compose file's own arguments. */
  predicate StartsLine(project: Option<string>, file: string, line: seq<string>) {
    line == (match project
             case None => ["docker", "compose", "-f", file, "--env-file", ".env"]
             case Some(name) =>
               if name == "" then ["docker", "compose", "-f", file, "--env-file", ".env"]
               else ["docker", "compose", "-p", name, "-f", file, "--env-file", ".env"])
  }

  lemma LineIs(project: Option<string>, file: string, line: seq<string>, args: seq<string>)
    requires StartsLine(project, file, line)
    ensures Compose(project, On(file, args)) == line + args
  {
  }

  /** The commands of a plan, word by word: what is checked and migrated first, */
  lemma PrologueIs(project: Option<string>, file: string, line: seq<string>)
    requires StartsLine(project, file, line)
    ensures Prologue(project, file) == [
              Step("validate compose file", "", Preflight, line + ["config", "--quiet"]),
              Step("apply migrations", "", Migrate, line + ["up", "-d", "--wait", "migrate"])]
  {
    LineIs(project, file, line, ["config", "--quiet"]);
    assert ["up", "-d"] + [] + ["--wait", "migrate"] == ["up", "-d", "--wait", "migrate"];
    LineIs(project, file, line, ["up", "-d", "--wait", "migrate"]);
  }

  /** what is done to each service of a rolling deploy, */
  lemma RollBlockIs(project: Option<string>, file: string, line: seq<string>, service: string)
    requires StartsLine(project, file, line)
    ensures RollBlock(project, file, service) == [
              Step("drain " + service + " (SIGTERM, wait exit)", service, Drain,
                   line + ["stop", "--timeout", "30", service]),
              Step("wait " + service + " fully stopped", service, Drain, line + ["ps", "--status", "running", service]),
              Step("start " + service + " (new image)", service, Start,
                   line + ["up", "-d", "--no-deps", "--wait", service])]
  {
    LineIs(project, file, line, ["stop", "--timeout", "30", service]);
    LineIs(project, file, line, ["ps", "--status", "running", service]);
    assert ["up", "-d"] + ["--no-deps"] + ["--wait", service] == ["up", "-d", "--no-deps", "--wait", service];
    LineIs(project, file, line, ["up", "-d", "--no-deps", "--wait", service]);
  }

  /** and of a blue/green one, before the cut and after it. */
  lemma DrainBlockIs(project: Option<string>, file: string, line: seq<string>, service: string)
    requires StartsLine(project, file, line)
    ensures DrainBlock(project, file, service) == [
              Step("drain blue " + service, service, Drain, line + ["stop", "--timeout", "30", service]),
              Step("wait blue " + service + " fully stopped", service, Drain,
                   line + ["ps", "--status", "running", service])]
  {
    LineIs(project, file, line, ["stop", "--timeout", "30", service]);
    LineIs(project, file, line, ["ps", "--status", "running", service]);
  }

  lemma GreenStartIs(green: string, file: string, service: string)
    requires green != ""
    ensures GreenStart(green, file, service) ==
            Step("start green " + service, service, Start,
                 ["docker", "compose", "-p", green, "-f", file, "--env-file", ".env", "up", "-d", "--wait", service])
  {
    assert ["up", "-d"] + [] + ["--wait", service] == ["up", "-d", "--wait", service];
    LineIs(Some(green), file, ["docker", "compose", "-p", green, "-f", file, "--env-file", ".env"],
           ["up", "-d", "--wait", service]);
  }

  /** The whole of a rolling plan, its parts in order, */
  lemma RollingPlanIs(project: Option<string>, file: string, services: seq<string>, line: seq<string>)
    requires StartsLine(project, file, line)
    ensures PlanFor(Rolling, project, file, services) ==
            Prologue(project, file)
            + [Step("roll api (health-gated)", "api", Start, line + ["up", "-d", "--no-deps", "--wait", "api"])]
            + RollBlocks(project, file, services)
  {
    LineIs(project, file, line, ["up", "-d", "--no-deps", "--wait", "api"]);
    assert ["up", "-d"] + ["--no-deps"] + ["--wait", "api"] == ["up", "-d", "--no-deps", "--wait", "api"];
  }

  /** and of a blue/green one, whose green project is named after the blue. */
  lemma BlueGreenPlanIs(project: Option<string>, file: string, services: seq<string>, line: seq<string>, green: string)
    requires StartsLine(project, file, line)
    requires green == (if project.None? || project == Some("") then "cloud-platform-staging-green"
                       else project.value + "-green")
    ensures PlanFor(BlueGreen, project, file, services) ==
            Prologue(project, file)
            + [Step("start green api", "api", Start,
                    ["docker", "compose", "-p", green, "-f", file, "--env-file", ".env", "up", "-d", "--wait", "api"])]
            + DrainBlocks(project, file, services)
            + [Step("cut traffic over to green", "api", Cutover, line + ["stop", "--timeout", "30", "api"])]
            + GreenStarts(green, file, services)
            + [Step("retire blue api container", "api", Teardown, line + ["rm", "--force", "-v", "api"])]
  {
    LineIs(project, file, line, ["stop", "--timeout", "30", "api"]);
    LineIs(project, file, line, ["rm", "--force", "-v", "api"]);
    assert GreenName(project) == green by { GreenNameIs(project, green); }
    GreenApiIs(green, file);
  }

  lemma GreenNameIs(project: Option<string>, green: string)
    requires green == (if project.None? || project == Some("") then "cloud-platform-staging-green"
                       else project.value + "-green")
    ensures GreenName(project) == green
  {
    assert "cloud-platform-staging" + "-green" == "cloud-platform-staging-green";
  }

  lemma GreenApiIs(green: string, file: string)
    requires green != ""
    ensures UpStep("start green api", Start, "api", Some(green), file, [], "api") ==
            Step("start green api", "api", Start,
                 ["docker", "compose", "-p", green, "-f", file, "--env-file", ".env", "up", "-d", "--wait", "api"])
  {
    assert ["up", "-d"] + [] + ["--wait", "api"] == ["up", "-d", "--wait", "api"];
    LineIs(Some(green), file, ["docker", "compose", "-p", green, "-f", file, "--env-file", ".env"],
           ["up", "-d", "--wait", "api"]);
  }

  /** Each service has its steps, in the order the services are given. */
  lemma {:induction false} RollBlocksInOrder(project: Option<string>, file: string, services: seq<string>, i: nat)
    requires i < |services|
    ensures |RollBlocks(project, file, services)| == 3 * |services|
    ensures RollBlocks(project, file, services)[3 * i..3 * i + 3] == RollBlock(project, file, services[i])
  {
    var last := |services| - 1;
    BlockCounts(project, "", file, services[..last]);
    var before := RollBlocks(project, file, services[..last]);
    assert RollBlocks(project, file, services) == before + RollBlock(project, file, services[last]);
    if i < last {
      RollBlocksInOrder(project, file, services[..last], i);
      assert RollBlocks(project, file, services)[3 * i..3 * i + 3] == before[3 * i..3 * i + 3];
    }
  }

  lemma {:induction false} DrainBlocksInOrder(project: Option<string>, file: string, services: seq<string>, i: nat)
    requires i < |services|
    ensures |DrainBlocks(project, file, services)| == 2 * |services|
    ensures DrainBlocks(project, file, services)[2 * i..2 * i + 2] == DrainBlock(project, file, services[i])
  {
    var last := |services| - 1;
    BlockCounts(project, "", file, services[..last]);
    var before := DrainBlocks(project, file, services[..last]);
    assert DrainBlocks(project, file, services) == before + DrainBlock(project, file, services[last]);
    if i < last {
      DrainBlocksInOrder(project, file, services[..last], i);
      assert DrainBlocks(project, file, services)[2 * i..2 * i + 2] == before[2 * i..2 * i + 2];
    }
  }

  lemma {:induction false} GreenStartsInOrder(green: string, file: string, services: seq<string>, i: nat)
    requires i < |services|
    ensures |GreenStarts(green, file, services)| == |services|
    ensures GreenStarts(green, file, services)[i] == GreenStart(green, file, services[i])
  {
    var last := |services| - 1;
    BlockCounts(None, green, file, services[..last]);
    if i < last { GreenStartsInOrder(green, file, services[..last], i); }
  }

  lemma {:induction false} BlockCounts(project: Option<string>, green: string, file: string, services: seq<string>)
    ensures |RollBlocks(project, file, services)| == 3 * |services|
    ensures |DrainBlocks(project, file, services)| == 2 * |services|
    ensures |GreenStarts(green, file, services)| == |services|
  {
    if services != [] { BlockCounts(project, green, file, services[..|services| - 1]); }
  }

  method BuildPlan(strategy: string, file: string, project: Option<string>, exclusive: seq<string>)
    returns (r: Result<seq<Step>, PlanError>)
    ensures r.Err? && r.error == UnknownStrategy <==> ParseStrategy(strategy).None?
    ensures r.Err? && r.error.NotExclusive? ==> r.error.service in exclusive && r.error.service !in EXCLUSIVE_SERVICES
    ensures r.Ok? <==> ParseStrategy(strategy).Some? && forall s :: s in exclusive ==> s in EXCLUSIVE_SERVICES
    ensures r.Ok? ==> r.value == PlanFor(ParseStrategy(strategy).value, project, file, exclusive)
  {
    if strategy !in {"rolling", "blue-green"} {
      return Err(UnknownStrategy);
    }
    var services: seq<string> := [];
    for i := 0 to |exclusive|
      invariant services == exclusive[..i]
      invariant forall s :: s in services ==> s in EXCLUSIVE_SERVICES
    {
      if exclusive[i] !in EXCLUSIVE_SERVICES {
        return Err(NotExclusive(exclusive[i]));
      }
      services := services + [exclusive[i]];
    }
    assert services == exclusive;
    var steps;
    if strategy == "rolling" {
      steps := RollingPlan(project, file, services);
    } else {
      steps := BlueGreenPlan(project, file, services);
    }
    return Ok(steps);
  }

  method RollingPlan(project: Option<string>, file: string, services: seq<string>) returns (steps: seq<Step>)
    ensures steps == PlanFor(Rolling, project, file, services)
  {
    steps := Prologue(project, file)
             + [UpStep("roll api (health-gated)", Start, "api", project, file, ["--no-deps"], "api")];
    ghost var head := steps;
    for i := 0 to |services|
      invariant steps == head + RollBlocks(project, file, services[..i])
    {
      AppendLast(services, i);
      steps := steps + RollBlock(project, file, services[i]);
    }
    assert services[..|services|] == services;
  }

  method BlueGreenPlan(project: Option<string>, file: string, services: seq<string>) returns (steps: seq<Step>)
    ensures steps == PlanFor(BlueGreen, project, file, services)
  {
    var green := GreenName(project);
    steps := Prologue(project, file) + [UpStep("start green api", Start, "api", Some(green), file, [], "api")];
    ghost var head := steps;
    for i := 0 to |services|
      invariant steps == head + DrainBlocks(project, file, services[..i])
    {
      AppendLast(services, i);
      steps := steps + DrainBlock(project, file, services[i]);
    }
    steps := steps + [StopStep("cut traffic over to green", Cutover, project, file, "api")];
    ghost var middle := steps;
    for i := 0 to |services|
      invariant steps == middle + GreenStarts(green, file, services[..i])
    {
      AppendLast(services, i);
      steps := steps + [GreenStart(green, file, services[i])];
    }
    assert services[..|services|] == services;
    steps := steps + [Step("retire blue api container", "api", Teardown,
                           Compose(project, On(file, ["rm", "--force", "-v", "api"])))];
  }

  lemma AppendLast(services: seq<string>, i: nat)
    requires i < |services|
    ensures services[..i + 1][..i] == services[..i] && services[..i + 1][i] == services[i]
  {
  }

  // -- checking -----------------------------------------------------------

  predicate IsDrainVerification(step: Step) {
    step.kind == Drain && "ps" in step.argv && "--status" in step.argv && "running" in step.argv
  }

  /** Every start of an exclusive service has a verification of that service before it. */
  ghost predicate Accepted(plan: seq<Step>) {
    forall i :: 0 <= i < |plan| && plan[i].service in EXCLUSIVE_SERVICES && plan[i].kind == Start ==>
      exists j :: 0 <= j < i && plan[j].service == plan[i].service && IsDrainVerification(plan[j])
  }

  method CheckPlan(plan: seq<Step>) returns (accepted: bool)
    ensures accepted <==> Accepted(plan)
  {
    for e := 0 to |EXCLUSIVE_SERVICES|
      invariant forall i :: 0 <= i < |plan| && plan[i].service in EXCLUSIVE_SERVICES[..e] && plan[i].kind == Start ==>
                  exists j :: 0 <= j < i && plan[j].service == plan[i].service && IsDrainVerification(plan[j])
    {
      var service := EXCLUSIVE_SERVICES[e];
      var drained := false;
      for i := 0 to |plan|
        invariant drained <==> exists j :: 0 <= j < i && plan[j].service == service && IsDrainVerification(plan[j])
        invariant forall k :: 0 <= k < i && plan[k].service == service && plan[k].kind == Start ==>
                    exists j :: 0 <= j < k && plan[j].service == service && IsDrainVerification(plan[j])
      {
        if plan[i].service == service {
          if IsDrainVerification(plan[i]) {
            drained := true;
          } else if plan[i].kind == Start && !drained {
            return false;
          }
        }
      }
    }
    return true;
  }
}
