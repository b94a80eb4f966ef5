/** Executing a plan against containers that obey only what docker compose guarantees, and how
    many generations of an exclusive service are ever live. */
module DeployRun {
  import opened Prelude
  import opened DeployPlan
  import PythonText

  /** A running container of one generation: `image` is the release it was started from. */
  datatype Container = Container(project: string, service: string, image: string)

  datatype Command =
    | Up(project: string, service: string, noDeps: bool)
    | Stop(project: string, service: string)
    | Ps(project: string, service: string)
    | Remove(project: string, service: string)
    | Config
    | Unknown

  datatype Outcome = Outcome(code: int, output: string)

  function ParseVerb(project: string, rest: seq<string>): Command {
    if |rest| < 6 then Unknown
    else
      var service := rest[|rest| - 1];
      if rest[4] == "up" then Up(project, service, "--no-deps" in rest[5..])
      else if rest[4] == "stop" then Stop(project, service)
      else if rest[4] == "ps" then Ps(project, service)
      else if rest[4] == "rm" then Remove(project, service)
      else if rest[4] == "config" then Config
      else Unknown
  }

  function Parse(argv: seq<string>): Command {
    if |argv| < 4 || argv[0] != "docker" || argv[1] != "compose" then Unknown
    else if argv[2] == "-p" then ParseVerb(argv[3], argv[4..])
    else ParseVerb(DEFAULT_PROJECT, argv[2..])
  }

  /** `not output.strip()`. */
  predicate Blank(output: string) {
    forall c :: c in output ==> PythonText.Space(c)
  }

  /** The compose file: which services `up` starts besides the one named. */
  type Dependencies = string -> set<string>

  /** The world a run happens in. `truthfulPs`: an empty `ps` listing means nothing runs even
      when `ps` itself exits non-zero. */
  datatype World = World(deps: Dependencies, image: string, truthfulPs: bool)

  predicate Starts(w: World, c: Command, service: string) {
    c.Up? && (service == c.service || (!c.noDeps && service in w.deps(c.service)))
  }

  /** What a command may do: each one may fail half-way with any effect on its own containers. */
  ghost predicate Permitted(w: World, c: Command, before: set<Container>, after: set<Container>, o: Outcome) {
    match c
    case Up(project, _, _) =>
      && (forall x :: x in before && !(x.project == project && Starts(w, c, x.service)) ==> x in after)
      && (forall x :: x in after && x !in before ==>
            x.project == project && Starts(w, c, x.service) && x.image == w.image)
    case Stop(project, service) => Shrinks(project, service, before, after)
    case Remove(project, service) => Shrinks(project, service, before, after)
    case Ps(project, service) =>
      && after == before
      && (Blank(o.output) && (w.truthfulPs || o.code == 0) ==> !Running(project, service, before))
    case Config => after == before
    case Unknown => true
  }

  ghost predicate Shrinks(project: string, service: string, before: set<Container>, after: set<Container>) {
    after <= before && forall x :: x in before && !(x.project == project && x.service == service) ==> x in after
  }

  ghost predicate Running(project: string, service: string, live: set<Container>) {
    exists x :: x in live && x.project == project && x.service == service
  }

  /** Whether `execute` goes on after this step: a verification looks only at the listing. */
  predicate Passes(step: Step, o: Outcome) {
    if IsDrainVerification(step) then Blank(o.output) else o.code == 0
  }

  /** What lets the run go on: of a drain step that lists running containers an output of white
      space alone, of any other step exit code zero. */
  lemma PassesIff(step: Step, o: Outcome)
    ensures Passes(step, o) <==>
              if step.kind == Drain && "ps" in step.argv && "--status" in step.argv && "running" in step.argv
              then PythonText.Strip(o.output, PythonText.Space) == "" else o.code == 0
  {
    var n, m := PythonText.StripIs(o.output, PythonText.Space);
    assert n < m ==> o.output[n] in o.output;
  }

  /** `states` and `outcomes` record an execution of `plan`, stopped anywhere. */
  ghost predicate IsRun(w: World, plan: seq<Step>, states: seq<set<Container>>, outcomes: seq<Outcome>) {
    && |outcomes| <= |plan| && |states| == |outcomes| + 1
    && (forall i :: 0 <= i < |outcomes| ==> Permitted(w, Parse(plan[i].argv), states[i], states[i + 1], outcomes[i]))
    && (forall i :: 0 <= i < |outcomes| - 1 ==> Passes(plan[i], outcomes[i]))
  }

  lemma RunExtends(w: World, plan: seq<Step>, states: seq<set<Container>>, outcomes: seq<Outcome>,
                   after: set<Container>, o: Outcome)
    requires IsRun(w, plan, states, outcomes) && |outcomes| < |plan|
    requires forall k :: 0 <= k < |outcomes| ==> Passes(plan[k], outcomes[k])
    requires Permitted(w, Parse(plan[|outcomes|].argv), states[|outcomes|], after, o)
    ensures IsRun(w, plan, states + [after], outcomes + [o])
  {
    var n := |outcomes|;
    forall i | 0 <= i < n + 1
      ensures Permitted(w, Parse(plan[i].argv), (states + [after])[i], (states + [after])[i + 1], (outcomes + [o])[i])
    {
      if i < n { assert (outcomes + [o])[i] == outcomes[i]; }
    }
  }

  // -- executing ----------------------------------------------------------

  /** How docker happens to react: to the k-th command, given what is live. */
  type Behaviour = (nat, Command, set<Container>) -> (set<Container>, Outcome)

  ghost predicate Lawful(w: World, behaviour: Behaviour) {
    forall k, c, live ::
      var (after, o) := behaviour(k, c, live);
      Permitted(w, c, live, after, o)
  }

  class Runner {
    const world: World
    const behaviour: Behaviour
    var calls: nat
    var live: set<Container>
    ghost var states: seq<set<Container>>
    ghost var outcomes: seq<Outcome>

    constructor (world: World, behaviour: Behaviour, live: set<Container>)
      ensures this.world == world && this.behaviour == behaviour && this.live == live
      ensures calls == 0 && states == [live] && outcomes == []
    {
      this.world, this.behaviour, this.live, calls := world, behaviour, live, 0;
      states, outcomes := [live], [];
    }

    method Run(argv: seq<string>) returns (code: int, output: string)
      requires Lawful(world, behaviour)
      modifies this
      ensures Permitted(world, Parse(argv), old(live), live, Outcome(code, output))
      ensures states == old(states) + [live] && outcomes == old(outcomes) + [Outcome(code, output)]
    {
      var (after, o) := behaviour(calls, Parse(argv), live);
      live, calls := after, calls + 1;
      states, outcomes := states + [after], outcomes + [o];
      return o.code, o.output;
    }
  }

  datatype DeployError = DoubleConsumers | StillRunning(step: Step) | StepFailed(step: Step)

  class Deployer {
    const runner: Runner
    const plan: seq<Step>

    constructor (runner: Runner, plan: seq<Step>)
      ensures this.runner == runner && this.plan == plan
    {
      this.runner, this.plan := runner, plan;
    }

    method Execute() returns (r: Result<(), DeployError>)
      requires Lawful(runner.world, runner.behaviour)
      requires runner.states == [runner.live] && runner.outcomes == []
      modifies runner
      ensures IsRun(runner.world, plan, runner.states, runner.outcomes)
      ensures runner.states[0] == old(runner.live) && runner.states[|runner.states| - 1] == runner.live
      ensures !Accepted(plan) <==> r == Err(DoubleConsumers)
      ensures !Accepted(plan) ==> runner.outcomes == []
      ensures r.Ok? <==> Accepted(plan) && |runner.outcomes| == |plan| &&
                         forall i :: 0 <= i < |plan| ==> Passes(plan[i], runner.outcomes[i])
      ensures r.Err? && Accepted(plan) ==>
                && |runner.outcomes| > 0
                && var k := |runner.outcomes| - 1;
                   !Passes(plan[k], runner.outcomes[k]) &&
                   r.error == if IsDrainVerification(plan[k]) then StillRunning(plan[k]) else StepFailed(plan[k])
    {
      var accepted := CheckPlan(plan);
      if !accepted {
        return Err(DoubleConsumers);
      }
      for i := 0 to |plan|
        invariant |runner.outcomes| == i
        invariant IsRun(runner.world, plan, runner.states, runner.outcomes)
        invariant runner.states[0] == old(runner.live) && runner.states[|runner.states| - 1] == runner.live
        invariant forall k :: 0 <= k < i ==> Passes(plan[k], runner.outcomes[k])
      {
        ghost var states, outcomes := runner.states, runner.outcomes;
        var code, output := runner.Run(plan[i].argv);
        RunExtends(runner.world, plan, states, outcomes, runner.live, Outcome(code, output));
        if IsDrainVerification(plan[i]) {
          if !Blank(output) {
            return Err(StillRunning(plan[i]));
          }
        } else if code != 0 {
          return Err(StepFailed(plan[i]));
        }
      }
      return Ok(());
    }
  }

  /** What the plan check alone gives: a start of an exclusive service has a verification step
      tagged with that service behind it, and its listing came back empty. */
  lemma StartsFollowVerification(w: World, plan: seq<Step>, states: seq<set<Container>>, outcomes: seq<Outcome>, i: nat)
    returns (j: nat)
    requires Accepted(plan) && IsRun(w, plan, states, outcomes)
    requires i < |outcomes| && plan[i].kind == Start && plan[i].service in EXCLUSIVE_SERVICES
    ensures j < i && plan[j].service == plan[i].service && IsDrainVerification(plan[j]) && Blank(outcomes[j].output)
  {
    j :| 0 <= j < i && plan[j].service == plan[i].service && IsDrainVerification(plan[j]);
    assert Passes(plan[j], outcomes[j]);
  }

  /** The steps do what their tags say: a verification lists the service it is tagged with, and
      what brings an exclusive service up is a start step tagged with it. */
  predicate TagMatches(step: Step) {
    var c := Parse(step.argv);
    && (IsDrainVerification(step) && Known(step.service) ==> c.Ps? && c.service == step.service)
    && (c.Up? && Known(c.service) ==> step.kind == Start && step.service == c.service)
  }

  predicate TagsMatch(plan: seq<Step>) {
    forall i :: 0 <= i < |plan| ==> TagMatches(plan[i])
  }

  /** For any accepted plan whose tags match its commands: a command that brings up an exclusive
      service was preceded, in the same run, by a listing of that service that came back empty;
      where listings tell the truth nothing of it ran in the listed project then. */
  lemma StartsFollowEmptyListing(w: World, plan: seq<Step>, states: seq<set<Container>>, outcomes: seq<Outcome>, i: nat)
    requires Accepted(plan) && TagsMatch(plan) && IsRun(w, plan, states, outcomes)
    requires i < |outcomes| && Parse(plan[i].argv).Up? && Known(Parse(plan[i].argv).service)
    ensures exists j, project :: 0 <= j < i && Parse(plan[j].argv) == Ps(project, Parse(plan[i].argv).service) &&
                                 Blank(outcomes[j].output) &&
                                 (w.truthfulPs || outcomes[j].code == 0 ==>
                                    !Running(project, Parse(plan[i].argv).service, states[j]))
  {
    assert TagMatches(plan[i]);
    var j := StartsFollowVerification(w, plan, states, outcomes, i);
    assert TagMatches(plan[j]);
    var c := Parse(plan[j].argv);
    assert c == Ps(c.project, Parse(plan[i].argv).service);
    assert Permitted(w, c, states[j], states[j + 1], outcomes[j]);
  }

  // -- reading the built plans --------------------------------------------

  /** All that matters of a step: its command, and whether it counts as a verification. */
  datatype View = View(command: Command, listing: bool)

  function ViewOf(step: Step): View {
    View(Parse(step.argv), IsDrainVerification(step))
  }

  ghost predicate Reads(plan: seq<Step>, views: seq<View>) {
    |plan| == |views| && forall i :: 0 <= i < |plan| ==> ViewOf(plan[i]) == views[i]
  }

  function RollViews(blue: string, services: seq<string>): seq<View> {
    if services == [] then []
    else
      var last := |services| - 1;
      var s := services[last];
      RollViews(blue, services[..last])
      + [View(Stop(blue, s), false), View(Ps(blue, s), true), View(Up(blue, s, true), false)]
  }

  function DrainViews(blue: string, services: seq<string>): seq<View> {
    if services == [] then []
    else
      var last := |services| - 1;
      var s := services[last];
      DrainViews(blue, services[..last]) + [View(Stop(blue, s), false), View(Ps(blue, s), true)]
  }

  function GreenViews(green: string, services: seq<string>): seq<View> {
    if services == [] then []
    else
      var last := |services| - 1;
      GreenViews(green, services[..last]) + [View(Up(green, services[last], false), false)]
  }

  function PlanViews(strategy: Strategy, blue: string, services: seq<string>): seq<View> {
    var green := blue + "-green";
    var head := [View(Config, false), View(Up(blue, "migrate", false), false)];
    match strategy
    case Rolling => head + [View(Up(blue, "api", true), false)] + RollViews(blue, services)
    case BlueGreen =>
      head + [View(Up(green, "api", false), false)] + DrainViews(blue, services)
      + [View(Stop(blue, "api"), false)] + GreenViews(green, services) + [View(Remove(blue, "api"), false)]
  }

  predicate Known(service: string) {
    service in EXCLUSIVE_SERVICES
  }

  lemma KnownAre(service: string)
    requires Known(service)
    ensures service == "worker" || service == "bot"
  {
    var i :| 0 <= i < |EXCLUSIVE_SERVICES| && EXCLUSIVE_SERVICES[i] == service;
  }

  lemma ParseCompose(project: Option<string>, args: seq<string>)
    requires |args| >= 6 && args[0] == "-f"
    ensures Parse(Compose(project, args)) == ParseVerb(BlueName(project), args)
  {
    var argv := Compose(project, args);
    if project.Some? && project.value != "" {
      assert argv[4..] == args && argv[3] == project.value;
    } else {
      assert argv[2..] == args;
    }
  }

  lemma UpVerb(project: string, file: string, service: string, noDeps: bool)
    requires service in {"worker", "bot", "api", "migrate"}
    ensures var args := On(file, ["up", "-d"] + (if noDeps then ["--no-deps"] else []) + ["--wait", service]);
            |args| >= 6 && args[0] == "-f" && ParseVerb(project, args) == Up(project, service, noDeps)
  {
    var flags := if noDeps then ["--no-deps"] else [];
    var args := On(file, ["up", "-d"] + flags + ["--wait", service]);
    assert args[4] == "up" && args[|args| - 1] == service;
    assert args[5..] == ["-d"] + flags + ["--wait", service];
  }

  lemma UpView(project: Option<string>, file: string, service: string, name: string, kind: Kind, tag: string,
               noDeps: bool)
    requires service in {"worker", "bot", "api", "migrate"} && kind != Drain
    ensures ViewOf(UpStep(name, kind, tag, project, file, if noDeps then ["--no-deps"] else [], service))
            == View(Up(BlueName(project), service, noDeps), false)
  {
    UpVerb(BlueName(project), file, service, noDeps);
    ParseCompose(project, On(file, ["up", "-d"] + (if noDeps then ["--no-deps"] else []) + ["--wait", service]));
  }

  lemma WaitView(name: string, project: Option<string>, file: string, service: string)
    ensures ViewOf(WaitStep(name, project, file, service)) == View(Ps(BlueName(project), service), true)
  {
    var args := On(file, ["ps", "--status", "running", service]);
    assert args[4] == "ps" && args[5] == "--status" && args[6] == "running" && args[7] == service;
    ParseCompose(project, args);
    var argv := Compose(project, args);
    var n := |argv| - |args|;
    assert argv[n..] == args;
    assert argv[n + 4] == "ps" && argv[n + 5] == "--status" && argv[n + 6] == "running";
  }

  /** A stop never passes for a verification: two free names cannot supply three words. */
  lemma StopView(name: string, kind: Kind, project: Option<string>, file: string, service: string)
    requires service in {"worker", "bot", "api"}
    ensures ViewOf(StopStep(name, kind, project, file, service)) == View(Stop(BlueName(project), service), false)
  {
    var args := On(file, ["stop", "--timeout", "30", service]);
    assert args[4] == "stop" && args[7] == service;
    ParseCompose(project, args);
    var argv := Compose(project, args);
    var fixed := ["docker", "compose", "-p", "-f", "--env-file", ".env", "stop", "--timeout", "30", service];
    var free := if project.Some? then project.value else file;
    forall a | a in argv ensures a in fixed || a == file || a == free {
      StopWords(project, file, service, a);
    }
    assert "ps" !in fixed && "--status" !in fixed && "running" !in fixed by { FixedWords(service); }
    assert |"ps"| == 2 && |"--status"| == 8 && |"running"| == 7;
  }

  lemma FixedWords(service: string)
    requires service in {"worker", "bot", "api"}
    ensures var fixed := ["docker", "compose", "-p", "-f", "--env-file", ".env", "stop", "--timeout", "30", service];
            "ps" !in fixed && "--status" !in fixed && "running" !in fixed
  {
    assert "ps"[0] == 'p' && "30"[0] == '3' && "-p"[0] == '-' && "-f"[0] == '-';
    assert "running"[0] == 'r' && "compose"[0] == 'c';
  }

  lemma StopWords(project: Option<string>, file: string, service: string, a: string)
    requires a in StopStep("", Drain, project, file, service).argv
    ensures a in ["docker", "compose", "-p", "-f", "--env-file", ".env", "stop", "--timeout", "30", service]
            || a == file || (project.Some? && a == project.value)
  {
    var argv := StopStep("", Drain, project, file, service).argv;
    var rest := ["-f", file, "--env-file", ".env", "stop", "--timeout", "30", service];
    assert On(file, ["stop", "--timeout", "30", service]) == rest;
    if project.Some? && project.value != "" {
      assert argv == ["docker", "compose"] + ["-p", project.value] + rest;
    } else {
      assert argv == ["docker", "compose"] + [] + rest;
    }
  }

  lemma ReadsAppend(a: seq<Step>, x: seq<View>, b: seq<Step>, y: seq<View>)
    requires Reads(a, x) && Reads(b, y)
    ensures Reads(a + b, x + y)
  {
  }

  lemma ReadsEach(steps: seq<Step>, views: seq<View>)
    requires |steps| == |views| <= 3
    requires |steps| > 0 ==> ViewOf(steps[0]) == views[0]
    requires |steps| > 1 ==> ViewOf(steps[1]) == views[1]
    requires |steps| > 2 ==> ViewOf(steps[2]) == views[2]
    ensures Reads(steps, views)
  {
  }

  lemma RollBlockReads(project: Option<string>, file: string, s: string)
    requires Known(s)
    ensures var blue := BlueName(project);
            Reads(RollBlock(project, file, s),
                  [View(Stop(blue, s), false), View(Ps(blue, s), true), View(Up(blue, s, true), false)])
  {
    KnownAre(s);
    StopView("drain " + s + " (SIGTERM, wait exit)", Drain, project, file, s);
    WaitView("wait " + s + " fully stopped", project, file, s);
    UpView(project, file, s, "start " + s + " (new image)", Start, s, true);
    ReadsEach(RollBlock(project, file, s),
              [View(Stop(BlueName(project), s), false), View(Ps(BlueName(project), s), true),
               View(Up(BlueName(project), s, true), false)]);
  }

  lemma DrainBlockReads(project: Option<string>, file: string, s: string)
    requires Known(s)
    ensures var blue := BlueName(project);
            Reads(DrainBlock(project, file, s), [View(Stop(blue, s), false), View(Ps(blue, s), true)])
  {
    KnownAre(s);
    StopView("drain blue " + s, Drain, project, file, s);
    WaitView("wait blue " + s + " fully stopped", project, file, s);
  }

  lemma {:induction false} RollReads(project: Option<string>, file: string, services: seq<string>)
    requires forall s :: s in services ==> Known(s)
    ensures Reads(RollBlocks(project, file, services), RollViews(BlueName(project), services))
  {
    if services != [] {
      var last := |services| - 1;
      var s, blue := services[last], BlueName(project);
      RollReads(project, file, services[..last]);
      RollBlockReads(project, file, s);
      ReadsAppend(RollBlocks(project, file, services[..last]), RollViews(blue, services[..last]),
                  RollBlock(project, file, s),
                  [View(Stop(blue, s), false), View(Ps(blue, s), true), View(Up(blue, s, true), false)]);
    }
  }

  lemma {:induction false} DrainReads(project: Option<string>, file: string, services: seq<string>)
    requires forall s :: s in services ==> Known(s)
    ensures Reads(DrainBlocks(project, file, services), DrainViews(BlueName(project), services))
  {
    if services != [] {
      var last := |services| - 1;
      var s, blue := services[last], BlueName(project);
      DrainReads(project, file, services[..last]);
      DrainBlockReads(project, file, s);
      ReadsAppend(DrainBlocks(project, file, services[..last]), DrainViews(blue, services[..last]),
                  DrainBlock(project, file, s),
                  [View(Stop(blue, s), false), View(Ps(blue, s), true)]);
    }
  }

  lemma {:induction false} GreenReads(green: string, file: string, services: seq<string>)
    requires green != "" && forall s :: s in services ==> Known(s)
    ensures Reads(GreenStarts(green, file, services), GreenViews(green, services))
  {
    if services != [] {
      var last := |services| - 1;
      GreenReads(green, file, services[..last]);
      KnownAre(services[last]);
      UpView(Some(green), file, services[last], "start green " + services[last], Start, services[last], false);
    }
  }

  lemma HeadReads(project: Option<string>, file: string)
    ensures Reads(Prologue(project, file), [View(Config, false), View(Up(BlueName(project), "migrate", false), false)])
  {
    var config := On(file, ["config", "--quiet"]);
    assert config[4] == "config";
    ParseCompose(project, config);
    UpView(project, file, "migrate", "apply migrations", Migrate, "", false);
  }

  /** The argument vectors of a built plan mean what the plan says they do. */
  lemma PlanReads(strategy: Strategy, project: Option<string>, file: string, services: seq<string>)
    requires forall s :: s in services ==> Known(s)
    ensures Reads(PlanFor(strategy, project, file, services), PlanViews(strategy, BlueName(project), services))
  {
    var blue := BlueName(project);
    HeadReads(project, file);
    var head, headViews := Prologue(project, file), [View(Config, false), View(Up(blue, "migrate", false), false)];
    if strategy == Rolling {
      UpView(project, file, "api", "roll api (health-gated)", Start, "api", true);
      var api := [UpStep("roll api (health-gated)", Start, "api", project, file, ["--no-deps"], "api")];
      var apiView := [View(Up(blue, "api", true), false)];
      ReadsAppend(head, headViews, api, apiView);
      RollReads(project, file, services);
      ReadsAppend(head + api, headViews + apiView, RollBlocks(project, file, services), RollViews(blue, services));
    } else {
      var green := GreenName(project);
      UpView(Some(green), file, "api", "start green api", Start, "api", false);
      var api := [UpStep("start green api", Start, "api", Some(green), file, [], "api")];
      var apiView := [View(Up(green, "api", false), false)];
      ReadsAppend(head, headViews, api, apiView);
      DrainReads(project, file, services);
      var a, x := head + api + DrainBlocks(project, file, services), headViews + apiView + DrainViews(blue, services);
      ReadsAppend(head + api, headViews + apiView, DrainBlocks(project, file, services), DrainViews(blue, services));
      StopView("cut traffic over to green", Cutover, project, file, "api");
      var cut, cutView := [StopStep("cut traffic over to green", Cutover, project, file, "api")],
                          [View(Stop(blue, "api"), false)];
      ReadsAppend(a, x, cut, cutView);
      GreenReads(green, file, services);
      ReadsAppend(a + cut, x + cutView, GreenStarts(green, file, services), GreenViews(green, services));
      var rm := On(file, ["rm", "--force", "-v", "api"]);
      assert rm[4] == "rm" && rm[7] == "api";
      ParseCompose(project, rm);
      var last := [Step("retire blue api container", "api", Teardown, Compose(project, rm))];
      ReadsAppend(a + cut + GreenStarts(green, file, services), x + cutView + GreenViews(green, services),
                  last, [View(Remove(blue, "api"), false)]);
    }
  }
}
