/** Runs of the plans `BuildPlan` makes: no two generations of an exclusive service, ever. */
module DeploySafety {
  import opened Prelude
  import opened DeployPlan
  import opened DeployRun

  ghost predicate AtMostOne(live: set<Container>, service: string) {
    forall x, y :: x in live && y in live && x.service == service && y.service == service ==> x == y
  }

  ghost predicate Safe(states: seq<set<Container>>) {
    forall k, service :: 0 <= k < |states| && Known(service) ==> AtMostOne(states[k], service)
  }

  function Target(strategy: Strategy, blue: string): string {
    if strategy == Rolling then blue else blue + "-green"
  }

  /** The compose file starts no exclusive service as somebody's dependency. */
  ghost predicate NoExclusiveDependency(w: World) {
    forall s, x :: s in {"api", "migrate", "worker", "bot"} && Known(x) && x in w.deps(s) ==> x == s
  }

  /** What the operator can check first: one generation of each exclusive service, and that one
      in the project the plan drains (or already the very generation the plan starts). Where an
      empty listing may mean that `ps` failed, only the latter will do. */
  ghost predicate StartOk(w: World, strategy: Strategy, blue: string, services: seq<string>, start: set<Container>) {
    forall service :: Known(service) ==>
      && AtMostOne(start, service)
      && (service in services ==> forall x :: x in start && x.service == service ==>
            (w.truthfulPs && x.project == blue) || x == Container(Target(strategy, blue), service, w.image))
  }

  // -- shape of the plans -------------------------------------------------

  ghost predicate Lists(views: seq<View>, n: nat, blue: string, service: string)
    requires n <= |views|
  {
    exists j :: 0 <= j < n && views[j] == View(Ps(blue, service), true)
  }

  /** A command that brings `service` up does so in `target`, after a listing in `blue` (or
      `listed` beforehand). Stops and removals only touch blue, and a verification directly
      follows the stop it verifies. */
  ghost predicate ShapeAt(w: World, views: seq<View>, i: nat, service: string, blue: string, target: string,
                          listed: bool)
    requires i < |views|
  {
    var c := views[i].command;
    && !c.Unknown?
    && (Starts(w, c, service) ==> c.project == target && (listed || Lists(views, i, blue, service)))
    && (c.Stop? || c.Remove? ==> c.project == blue)
    && (views[i].listing <==> c.Ps?)
    && (c.Ps? ==> i > 0 && views[i - 1] == View(Stop(c.project, c.service), false))
  }

  ghost predicate Shape(w: World, views: seq<View>, service: string, blue: string, target: string, listed: bool) {
    forall i :: 0 <= i < |views| ==> ShapeAt(w, views, i, service, blue, target, listed)
  }

  lemma ListsAppend(a: seq<View>, b: seq<View>, i: nat, blue: string, service: string)
    requires i <= |b|
    ensures Lists(a + b, |a| + i, blue, service) <==> Lists(a, |a|, blue, service) || Lists(b, i, blue, service)
  {
    var ab := a + b;
    if j :| 0 <= j < |a| && a[j] == View(Ps(blue, service), true) {
      assert ab[j] == a[j];
    }
    if j :| 0 <= j < i && b[j] == View(Ps(blue, service), true) {
      assert ab[|a| + j] == b[j];
    }
    if j :| 0 <= j < |a| + i && ab[j] == View(Ps(blue, service), true) {
      assert j >= |a| ==> b[j - |a|] == ab[j];
    }
  }

  lemma ShapeAppend(w: World, a: seq<View>, b: seq<View>, service: string, blue: string, target: string, listed: bool)
    requires Shape(w, a, service, blue, target, listed)
    requires Shape(w, b, service, blue, target, listed || Lists(a, |a|, blue, service))
    ensures Shape(w, a + b, service, blue, target, listed)
    ensures Lists(a, |a|, blue, service) || Lists(b, |b|, blue, service) ==> Lists(a + b, |a + b|, blue, service)
  {
    var ab := a + b;
    ListsAppend(a, b, |b|, blue, service);
    forall i | 0 <= i < |ab| ensures ShapeAt(w, ab, i, service, blue, target, listed) {
      if i < |a| {
        assert ShapeAt(w, a, i, service, blue, target, listed);
        if j :| 0 <= j < i && a[j] == View(Ps(blue, service), true) { assert ab[j] == a[j]; }
      } else {
        assert ShapeAt(w, b, i - |a|, service, blue, target, listed || Lists(a, |a|, blue, service));
        ListsAppend(a, b, i - |a|, blue, service);
      }
    }
  }

  /** One more step, or two, or three. */
  lemma ShapeStep(w: World, views: seq<View>, service: string, blue: string, target: string, listed: bool)
    requires 0 < |views| <= 3
    requires ShapeAt(w, views, 0, service, blue, target, listed)
    requires |views| > 1 ==> ShapeAt(w, views, 1, service, blue, target, listed)
    requires |views| > 2 ==> ShapeAt(w, views, 2, service, blue, target, listed)
    ensures Shape(w, views, service, blue, target, listed)
  {
  }

  lemma {:induction false} RollShape(w: World, blue: string, services: seq<string>, service: string)
    requires NoExclusiveDependency(w) && Known(service) && forall s :: s in services ==> Known(s)
    ensures Shape(w, RollViews(blue, services), service, blue, blue, false)
  {
    if services != [] {
      var last := |services| - 1;
      var s := services[last];
      RollShape(w, blue, services[..last], service);
      var block := [View(Stop(blue, s), false), View(Ps(blue, s), true), View(Up(blue, s, true), false)];
      assert block[1] == View(Ps(blue, s), true);
      assert Lists(block, 2, blue, service) <== s == service;
      ShapeStep(w, block, service, blue, blue, false);
      ShapeAppend(w, RollViews(blue, services[..last]), block, service, blue, blue, false);
    }
  }

  lemma {:induction false} DrainShape(w: World, blue: string, services: seq<string>, service: string, target: string)
    requires Known(service)
    ensures Shape(w, DrainViews(blue, services), service, blue, target, false)
    ensures service in services ==> Lists(DrainViews(blue, services), |DrainViews(blue, services)|, blue, service)
  {
    if services != [] {
      var last := |services| - 1;
      var s := services[last];
      DrainShape(w, blue, services[..last], service, target);
      var block := [View(Stop(blue, s), false), View(Ps(blue, s), true)];
      assert block[1] == View(Ps(blue, s), true);
      ShapeStep(w, block, service, blue, target, false);
      ShapeAppend(w, DrainViews(blue, services[..last]), block, service, blue, target, false);
      assert services == services[..last] + [s];
    }
  }

  lemma {:induction false} GreenShape(w: World, green: string, services: seq<string>, service: string, blue: string,
                                      listed: bool)
    requires NoExclusiveDependency(w) && Known(service) && forall s :: s in services ==> Known(s)
    requires service in services ==> listed
    ensures Shape(w, GreenViews(green, services), service, blue, green, listed)
  {
    if services != [] {
      var last := |services| - 1;
      var s := services[last];
      KnownAre(s);
      GreenShape(w, green, services[..last], service, blue, listed);
      var block := [View(Up(green, s, false), false)];
      ShapeStep(w, block, service, blue, green, listed);
      ShapeAppend(w, GreenViews(green, services[..last]), block, service, blue, green, listed);
    }
  }

  lemma PlanShape(w: World, strategy: Strategy, blue: string, services: seq<string>, service: string)
    requires NoExclusiveDependency(w) && Known(service) && forall s :: s in services ==> Known(s)
    ensures Shape(w, PlanViews(strategy, blue, services), service, blue, Target(strategy, blue), false)
  {
    KnownAre(service);
    var target := Target(strategy, blue);
    var head := [View(Config, false), View(Up(blue, "migrate", false), false)];
    if strategy == Rolling {
      var a := head + [View(Up(blue, "api", true), false)];
      ShapeStep(w, a, service, blue, target, false);
      RollShape(w, blue, services, service);
      ShapeAppend(w, a, RollViews(blue, services), service, blue, target, false);
    } else {
      var a := head + [View(Up(target, "api", false), false)];
      ShapeStep(w, a, service, blue, target, false);
      DrainShape(w, blue, services, service, target);
      ShapeAppend(w, a, DrainViews(blue, services), service, blue, target, false);
      var b := a + DrainViews(blue, services);
      var cut := [View(Stop(blue, "api"), false)];
      ShapeStep(w, cut, service, blue, target, false);
      ShapeAppend(w, b, cut, service, blue, target, false);
      GreenShape(w, target, services, service, blue, Lists(b + cut, |b + cut|, blue, service));
      ShapeAppend(w, b + cut, GreenViews(target, services), service, blue, target, false);
      var last := [View(Remove(blue, "api"), false)];
      ShapeStep(w, last, service, blue, target, false);
      ShapeAppend(w, b + cut + GreenViews(target, services), last, service, blue, target, false);
    }
  }

  // -- every run is safe --------------------------------------------------

  ghost predicate OnlyNew(w: World, live: set<Container>, service: string, target: string) {
    forall x :: x in live && x.service == service ==> x == Container(target, service, w.image)
  }

  ghost predicate OnlyOld(live: set<Container>, start: set<Container>, service: string) {
    forall x :: x in live && x.service == service ==> x in start
  }

  /** After k steps: either only the new generation is left, or still at most the old one; and
      once a listing passed, the former. */
  lemma {:induction false} GenerationsAfter(w: World, plan: seq<Step>, views: seq<View>, states: seq<set<Container>>,
                                            outcomes: seq<Outcome>, service: string, blue: string, target: string,
                                              k: nat)
    requires Reads(plan, views) && IsRun(w, plan, states, outcomes) && k <= |outcomes|
    requires Shape(w, views, service, blue, target, false)
    requires w.truthfulPs || OnlyNew(w, states[0], service, target)
    requires (forall x :: x in states[0] && x.service == service ==>
              x.project == blue || x == Container(target, service, w.image))
    requires AtMostOne(states[0], service)
    ensures OnlyNew(w, states[k], service, target) || OnlyOld(states[k], states[0], service)
    ensures k < |outcomes| && Lists(views, k, blue, service) ==> OnlyNew(w, states[k], service, target)
  {
    if k > 0 {
      GenerationsAfter(w, plan, views, states, outcomes, service, blue, target, k - 1);
      assert ViewOf(plan[k - 1]) == views[k - 1];
      assert ShapeAt(w, views, k - 1, service, blue, target, false);
      var c := views[k - 1].command;
      assert Permitted(w, c, states[k - 1], states[k], outcomes[k - 1]);
      if k < |outcomes| && Lists(views, k, blue, service) && !Lists(views, k - 1, blue, service) {
        assert views[k - 1] == View(Ps(blue, service), true);
        assert Passes(plan[k - 1], outcomes[k - 1]);
        assert w.truthfulPs ==> !Running(blue, service, states[k - 1]);
        assert w.truthfulPs ==> forall x :: x in states[k] && x.service == service ==> x.project != blue;
      }
    }
  }

  ghost predicate LeavesAlone(w: World, views: seq<View>, service: string) {
    forall v :: v in views ==> !Starts(w, v.command, service) && !v.command.Unknown?
  }

  /** A service the plan leaves alone keeps what it had, or loses it. */
  lemma {:induction false} UntouchedService(w: World, plan: seq<Step>, views: seq<View>, states: seq<set<Container>>,
                                            outcomes: seq<Outcome>, service: string, k: nat)
    requires Reads(plan, views) && IsRun(w, plan, states, outcomes) && k <= |outcomes|
    requires LeavesAlone(w, views, service)
    ensures OnlyOld(states[k], states[0], service)
  {
    if k > 0 {
      UntouchedService(w, plan, views, states, outcomes, service, k - 1);
      assert views[k - 1] in views;
      assert ViewOf(plan[k - 1]) == views[k - 1];
      assert Permitted(w, views[k - 1].command, states[k - 1], states[k], outcomes[k - 1]);
    }
  }

  lemma LeavesAppend(w: World, a: seq<View>, b: seq<View>, service: string)
    requires LeavesAlone(w, a, service) && LeavesAlone(w, b, service)
    ensures LeavesAlone(w, a + b, service)
  {
  }

  lemma {:induction false} BlocksStartOnly(w: World, blue: string, services: seq<string>, service: string)
    requires NoExclusiveDependency(w) && Known(service) && forall s :: s in services ==> Known(s)
    requires service !in services
    ensures LeavesAlone(w, RollViews(blue, services), service)
    ensures LeavesAlone(w, DrainViews(blue, services), service)
    ensures LeavesAlone(w, GreenViews(blue, services), service)
  {
    if services != [] {
      var last := |services| - 1;
      assert services == services[..last] + [services[last]];
      KnownAre(services[last]);
      BlocksStartOnly(w, blue, services[..last], service);
    }
  }

  lemma PlanStartsOnly(w: World, strategy: Strategy, blue: string, services: seq<string>, service: string)
    requires NoExclusiveDependency(w) && Known(service) && forall s :: s in services ==> Known(s)
    requires service !in services
    ensures LeavesAlone(w, PlanViews(strategy, blue, services), service)
  {
    KnownAre(service);
    var green := blue + "-green";
    BlocksStartOnly(w, blue, services, service);
    BlocksStartOnly(w, green, services, service);
    var head := [View(Config, false), View(Up(blue, "migrate", false), false)];
    if strategy == Rolling {
      var api := [View(Up(blue, "api", true), false)];
      LeavesAppend(w, head, api, service);
      LeavesAppend(w, head + api, RollViews(blue, services), service);
    } else {
      var api, cut, last := [View(Up(green, "api", false), false)], [View(Stop(blue, "api"), false)],
                            [View(Remove(blue, "api"), false)];
      LeavesAppend(w, head, api, service);
      LeavesAppend(w, head + api, DrainViews(blue, services), service);
      LeavesAppend(w, head + api + DrainViews(blue, services), cut, service);
      LeavesAppend(w, head + api + DrainViews(blue, services) + cut, GreenViews(green, services), service);
      LeavesAppend(w, head + api + DrainViews(blue, services) + cut + GreenViews(green, services), last, service);
    }
  }

  lemma BuiltPlansAreSafe(w: World, strategy: Strategy, project: Option<string>, file: string, services: seq<string>,
                          states: seq<set<Container>>, outcomes: seq<Outcome>)
    requires NoExclusiveDependency(w) && forall s :: s in services ==> Known(s)
    requires IsRun(w, PlanFor(strategy, project, file, services), states, outcomes)
    requires StartOk(w, strategy, BlueName(project), services, states[0])
    ensures Safe(states)
  {
    var blue := BlueName(project);
    var plan, views := PlanFor(strategy, project, file, services), PlanViews(strategy, blue, services);
    PlanReads(strategy, project, file, services);
    forall k, service | 0 <= k < |states| && Known(service) ensures AtMostOne(states[k], service) {
      if service in services {
        PlanShape(w, strategy, blue, services, service);
        GenerationsAfter(w, plan, views, states, outcomes, service, blue, Target(strategy, blue), k);
      } else {
        PlanStartsOnly(w, strategy, blue, services, service);
        UntouchedService(w, plan, views, states, outcomes, service, k);
      }
    }
  }

  // -- and the starting condition is necessary ------------------------------

  const DONE := Outcome(0, "")

  /** Every command does what it was asked, and `up` leaves what it finds. */
  function NominalAfter(w: World, c: Command, live: set<Container>): set<Container> {
    match c
    case Up(project, service, _) => live + {Container(project, service, w.image)}
    case Stop(project, service) => Without(live, project, service)
    case Remove(project, service) => Without(live, project, service)
    case Ps(_, _) => live
    case Config => live
    case Unknown => live
  }

  function Without(live: set<Container>, project: string, service: string): (rest: set<Container>)
    ensures Shrinks(project, service, live, rest) && !Running(project, service, rest)
  {
    set x | x in live && !(x.project == project && x.service == service)
  }

  function Nominal(w: World, views: seq<View>, start: set<Container>, k: nat): set<Container>
    requires k <= |views|
  {
    if k == 0 then start else NominalAfter(w, views[k - 1].command, Nominal(w, views, start, k - 1))
  }

  function NominalStates(w: World, views: seq<View>, start: set<Container>, n: nat): (r: seq<set<Container>>)
    requires n <= |views|
    ensures |r| == n + 1 && forall k :: 0 <= k <= n ==> r[k] == Nominal(w, views, start, k)
  {
    seq(n + 1, k requires 0 <= k <= n => Nominal(w, views, start, k))
  }

  /** `IsRun`, said of what the steps mean. */
  ghost predicate ViewRun(w: World, views: seq<View>, states: seq<set<Container>>, outcomes: seq<Outcome>) {
    && |outcomes| <= |views| && |states| == |outcomes| + 1
    && forall i :: 0 <= i < |outcomes| ==> ViewStep(w, views[i], states[i], states[i + 1], outcomes[i])
  }

  ghost predicate ViewStep(w: World, v: View, before: set<Container>, after: set<Container>, o: Outcome) {
    Permitted(w, v.command, before, after, o) && if v.listing then Blank(o.output) else o.code == 0
  }

  lemma ViewRunIsRun(w: World, plan: seq<Step>, views: seq<View>, states: seq<set<Container>>, outcomes: seq<Outcome>)
    requires Reads(plan, views) && ViewRun(w, views, states, outcomes)
    ensures IsRun(w, plan, states, outcomes)
  {
    forall i | 0 <= i < |outcomes|
      ensures Permitted(w, Parse(plan[i].argv), states[i], states[i + 1], outcomes[i]) && Passes(plan[i], outcomes[i])
    {
      assert ViewOf(plan[i]) == views[i];
      assert ViewStep(w, views[i], states[i], states[i + 1], outcomes[i]);
    }
  }

  lemma NominalStep(w: World, v: View, live: set<Container>)
    requires v.listing == v.command.Ps?
    requires v.command.Ps? ==> !Running(v.command.project, v.command.service, live)
    ensures ViewStep(w, v, live, NominalAfter(w, v.command, live), DONE)
  {
  }

  lemma NominalIsRun(w: World, views: seq<View>, start: set<Container>, n: nat, service: string, blue: string,
                     target: string)
    requires n <= |views| && Shape(w, views, service, blue, target, false)
    ensures ViewRun(w, views, NominalStates(w, views, start, n), seq(n, _ => DONE))
  {
    forall i | 0 <= i < n
      ensures ViewStep(w, views[i], Nominal(w, views, start, i), Nominal(w, views, start, i + 1), DONE)
    {
      assert ShapeAt(w, views, i, service, blue, target, false);
      NominalStep(w, views[i], Nominal(w, views, start, i));
    }
  }

  lemma {:induction false} ElsewhereSurvives(w: World, views: seq<View>, start: set<Container>, k: nat, x: Container,
                                             service: string, blue: string, target: string)
    requires k <= |views| && Shape(w, views, service, blue, target, false)
    requires x in start && x.project != blue
    ensures x in Nominal(w, views, start, k)
  {
    if k > 0 {
      ElsewhereSurvives(w, views, start, k - 1, x, service, blue, target);
      assert ShapeAt(w, views, k - 1, service, blue, target, false);
    }
  }

  lemma {:induction false} ServiceIsStarted(w: World, strategy: Strategy, blue: string, services: seq<string>,
                                            service: string)
    returns (i: nat)
    requires service in services
    ensures var views := PlanViews(strategy, blue, services);
            i < |views| && views[i].command.Up? && views[i].command.project == Target(strategy, blue) &&
            views[i].command.service == service
  {
    var green := blue + "-green";
    if strategy == Rolling {
      var j := RollStarts(blue, services, service);
      i := 3 + j;
    } else {
      var j := GreenStartsService(green, services, service);
      i := 3 + |DrainViews(blue, services)| + 1 + j;
      var head := [View(Config, false), View(Up(blue, "migrate", false), false)]
                  + [View(Up(green, "api", false), false)]
                  + DrainViews(blue, services) + [View(Stop(blue, "api"), false)];
      assert PlanViews(strategy, blue, services) == head + GreenViews(green, services) +
             [View(Remove(blue, "api"), false)];
    }
  }

  lemma {:induction false} RollStarts(blue: string, services: seq<string>, service: string) returns (j: nat)
    requires service in services
    ensures j < |RollViews(blue, services)| && RollViews(blue, services)[j].command == Up(blue, service, true)
  {
    var last := |services| - 1;
    if services[last] == service {
      j := |RollViews(blue, services)| - 1;
    } else {
      j := RollStarts(blue, services[..last], service);
    }
  }

  lemma {:induction false} GreenStartsService(green: string, services: seq<string>, service: string) returns (j: nat)
    requires service in services
    ensures j < |GreenViews(green, services)| && GreenViews(green, services)[j].command == Up(green, service, false)
  {
    var last := |services| - 1;
    if services[last] == service {
      j := |GreenViews(green, services)| - 1;
    } else {
      j := GreenStartsService(green, services[..last], service);
    }
  }

  lemma StrayGenerationDoubles(w: World, strategy: Strategy, blue: string, services: seq<string>,
                               start: set<Container>, x: Container)
    returns (states: seq<set<Container>>, outcomes: seq<Outcome>)
    requires NoExclusiveDependency(w) && forall s :: s in services ==> Known(s)
    requires x in start && Known(x.service) && x.service in services
    requires x.project != blue && x != Container(Target(strategy, blue), x.service, w.image)
    ensures ViewRun(w, PlanViews(strategy, blue, services), states, outcomes) && states[0] == start && !Safe(states)
  {
    var views, target := PlanViews(strategy, blue, services), Target(strategy, blue);
    PlanShape(w, strategy, blue, services, x.service);
    var i := ServiceIsStarted(w, strategy, blue, services, x.service);
    ElsewhereSurvives(w, views, start, i + 1, x, x.service, blue, target);
    NominalIsRun(w, views, start, i + 1, x.service, blue, target);
    states, outcomes := NominalStates(w, views, start, i + 1), seq(i + 1, _ => DONE);
    NominalStarts(w, views, start, i, target, x.service);
    assert !AtMostOne(states[i + 1], x.service);
  }

  lemma NominalStarts(w: World, views: seq<View>, start: set<Container>, i: nat, project: string, service: string)
    requires i < |views| && views[i].command.Up?
    requires views[i].command.project == project && views[i].command.service == service
    ensures Container(project, service, w.image) in Nominal(w, views, start, i + 1)
  {
  }

  // -- a run in which no stop and no listing has any effect ------------------

  function StubbornAfter(w: World, v: View, live: set<Container>): set<Container> {
    if v.command.Up? then live + {Container(v.command.project, v.command.service, w.image)} else live
  }

  function Reaction(v: View): Outcome {
    if v.command.Ps? then Outcome(1, "") else DONE
  }

  function Stubborn(w: World, views: seq<View>, start: set<Container>, k: nat): (live: set<Container>)
    requires k <= |views|
    ensures start <= live
  {
    if k == 0 then start else StubbornAfter(w, views[k - 1], Stubborn(w, views, start, k - 1))
  }

  lemma StubbornIsRun(w: World, views: seq<View>, start: set<Container>, n: nat)
    requires !w.truthfulPs && n <= |views|
    requires forall v :: v in views ==> !v.command.Unknown? && (v.listing <==> v.command.Ps?)
    ensures ViewRun(w, views, seq(n + 1, k requires 0 <= k <= n => Stubborn(w, views, start, k)),
                    seq(n, i requires 0 <= i < n => Reaction(views[i])))
  {
    forall i | 0 <= i < n
      ensures ViewStep(w, views[i], Stubborn(w, views, start, i), Stubborn(w, views, start, i + 1), Reaction(views[i]))
    {
      assert views[i] in views;
    }
  }

  /** Every command of a built plan is a known one, and its listings are its verifications. */
  lemma PlanIsReadable(strategy: Strategy, blue: string, services: seq<string>, service: string)
    requires Known(service) && forall s :: s in services ==> Known(s)
    ensures forall v :: v in PlanViews(strategy, blue, services) ==>
              !v.command.Unknown? && (v.listing <==> v.command.Ps?)
  {
    var views, target := PlanViews(strategy, blue, services), Target(strategy, blue);
    var plain := World(_ => {}, "", false);
    PlanShape(plain, strategy, blue, services, service);
    forall v | v in views ensures !v.command.Unknown? && (v.listing <==> v.command.Ps?) {
      var i :| 0 <= i < |views| && views[i] == v;
      assert ShapeAt(plain, views, i, service, blue, target, false);
    }
  }

  lemma TwoOfOne(live: set<Container>, x: Container, y: Container)
    requires x in live && y in live && x != y && x.service == y.service
    ensures !AtMostOne(live, x.service)
  {
  }

  lemma StubbornDoubles(w: World, strategy: Strategy, blue: string, services: seq<string>,
                        start: set<Container>, x: Container)
    returns (states: seq<set<Container>>, outcomes: seq<Outcome>)
    requires !w.truthfulPs && forall s :: s in services ==> Known(s)
    requires x in start && x.service in services && x != Container(Target(strategy, blue), x.service, w.image)
    ensures ViewRun(w, PlanViews(strategy, blue, services), states, outcomes) && states[0] == start && !Safe(states)
  {
    var views := PlanViews(strategy, blue, services);
    PlanIsReadable(strategy, blue, services, x.service);
    var i := ServiceIsStarted(w, strategy, blue, services, x.service);
    StubbornIsRun(w, views, start, i + 1);
    states := seq(i + 2, k requires 0 <= k <= i + 1 => Stubborn(w, views, start, k));
    outcomes := seq(i + 1, j requires 0 <= j < i + 1 => Reaction(views[j]));
    TwoOfOne(states[i + 1], x, Container(Target(strategy, blue), x.service, w.image));
  }

  lemma UnsafeStartHasUnsafeRun(w: World, strategy: Strategy, project: Option<string>, file: string,
                                services: seq<string>,
                                start: set<Container>)
    requires NoExclusiveDependency(w) && forall s :: s in services ==> Known(s)
    requires !StartOk(w, strategy, BlueName(project), services, start)
    ensures exists states, outcomes ::
              IsRun(w, PlanFor(strategy, project, file, services), states, outcomes) && states[0] == start &&
                !Safe(states)
  {
    var blue := BlueName(project);
    var plan := PlanFor(strategy, project, file, services);
    if service :| Known(service) && !AtMostOne(start, service) {
      assert IsRun(w, plan, [start], []);
      assert !AtMostOne([start][0], service) && !Safe([start]);
    } else {
      var x :| x in start && Known(x.service) && x.service in services && (w.truthfulPs ==> x.project != blue) &&
               x != Container(Target(strategy, blue), x.service, w.image);
      PlanReads(strategy, project, file, services);
      var states, outcomes;
      if w.truthfulPs {
        states, outcomes := StrayGenerationDoubles(w, strategy, blue, services, start, x);
      } else {
        states, outcomes := StubbornDoubles(w, strategy, blue, services, start, x);
      }
      ViewRunIsRun(w, plan, PlanViews(strategy, blue, services), states, outcomes);
    }
  }

  /** A built plan is safe in every run exactly when it starts from such a state. */
  lemma BuiltPlanSafeIff(w: World, strategy: Strategy, project: Option<string>, file: string, services: seq<string>,
                         start: set<Container>)
    requires NoExclusiveDependency(w) && forall s :: s in services ==> Known(s)
    ensures (forall states, outcomes ::
               IsRun(w, PlanFor(strategy, project, file, services), states, outcomes) && states[0] == start ==>
                 Safe(states))
            <==> StartOk(w, strategy, BlueName(project), services, start)
  {
    if StartOk(w, strategy, BlueName(project), services, start) {
      forall states, outcomes |
        IsRun(w, PlanFor(strategy, project, file, services), states, outcomes) && states[0] == start
        ensures Safe(states)
      {
        BuiltPlansAreSafe(w, strategy, project, file, services, states, outcomes);
      }
    } else {
      UnsafeStartHasUnsafeRun(w, strategy, project, file, services, start);
    }
  }

  // -- the plan check lets every built plan through ----------------------------

  ghost predicate Verified(plan: seq<Step>, n: nat, service: string)
    requires n <= |plan|
  {
    exists j :: 0 <= j < n && plan[j].service == service && IsDrainVerification(plan[j])
  }

  ghost predicate VerifiedIn(plan: seq<Step>, service: string) {
    Verified(plan, |plan|, service)
  }

  ghost predicate AcceptedFor(plan: seq<Step>, service: string, verified: bool) {
    forall i :: 0 <= i < |plan| && plan[i].service == service && plan[i].kind == Start ==>
      verified || Verified(plan, i, service)
  }

  lemma AcceptedAppend(a: seq<Step>, b: seq<Step>, service: string)
    requires AcceptedFor(a, service, false) && AcceptedFor(b, service, VerifiedIn(a, service))
    ensures AcceptedFor(a + b, service, false)
    ensures VerifiedIn(a, service) || VerifiedIn(b, service) ==> VerifiedIn(a + b, service)
  {
    var ab := a + b;
    forall i | 0 <= i <= |a| && Verified(a, i, service) ensures Verified(ab, i, service) {
      var j :| 0 <= j < i && a[j].service == service && IsDrainVerification(a[j]);
      assert ab[j] == a[j];
    }
    forall i | 0 <= i <= |b| && (VerifiedIn(a, service) || Verified(b, i, service))
      ensures Verified(ab, |a| + i, service)
    {
      if VerifiedIn(a, service) {
        var j :| 0 <= j < |a| && a[j].service == service && IsDrainVerification(a[j]);
        assert ab[j] == a[j];
      } else {
        var j :| 0 <= j < i && b[j].service == service && IsDrainVerification(b[j]);
        assert ab[|a| + j] == b[j];
      }
    }
    forall i | 0 <= i < |ab| && ab[i].service == service && ab[i].kind == Start ensures Verified(ab, i, service) {
      if i >= |a| {
        assert ab[i] == b[i - |a|];
        assert Verified(ab, |a| + (i - |a|), service);
      }
    }
  }

  lemma WaitVerifies(name: string, block: seq<Step>, project: Option<string>, file: string, s: string)
    requires |block| > 1 && block[1] == WaitStep(name, project, file, s)
    ensures Verified(block, |block|, s) && Verified(block, 2, s)
  {
    WaitView(name, project, file, s);
    assert ViewOf(block[1]).listing;
  }

  lemma AcceptedBlock(a: seq<Step>, block: seq<Step>, service: string, s: string)
    requires AcceptedFor(a, service, false)
    requires 2 <= |block| <= 3 && forall i :: 0 <= i < |block| ==>
               block[i].service == s && (i < 2 ==> block[i].kind == Drain)
    requires Verified(block, 2, s)
    ensures AcceptedFor(a + block, service, false)
    ensures s == service || VerifiedIn(a, service) ==> VerifiedIn(a + block, service)
  {
    AcceptedAppend(a, block, service);
  }

  lemma {:induction false} RollAccepted(project: Option<string>, file: string, services: seq<string>, service: string)
    ensures AcceptedFor(RollBlocks(project, file, services), service, false)
  {
    if services != [] {
      var last := |services| - 1;
      var s := services[last];
      var before, block := RollBlocks(project, file, services[..last]), RollBlock(project, file, s);
      assert RollBlocks(project, file, services) == before + block;
      RollAccepted(project, file, services[..last], service);
      WaitVerifies("wait " + s + " fully stopped", block, project, file, s);
      AcceptedBlock(before, block, service, s);
    }
  }

  lemma {:induction false} DrainAccepted(project: Option<string>, file: string, services: seq<string>, service: string)
    ensures AcceptedFor(DrainBlocks(project, file, services), service, false)
    ensures service in services ==> VerifiedIn(DrainBlocks(project, file, services), service)
  {
    if services != [] {
      var last := |services| - 1;
      var s := services[last];
      var before, block := DrainBlocks(project, file, services[..last]), DrainBlock(project, file, s);
      assert DrainBlocks(project, file, services) == before + block;
      DrainAccepted(project, file, services[..last], service);
      WaitVerifies("wait blue " + s + " fully stopped", block, project, file, s);
      AcceptedBlock(before, block, service, s);
      assert service in services && service != s ==> service in services[..last];
    }
  }

  lemma {:induction false} GreenStartsAre(green: string, file: string, services: seq<string>)
    ensures forall x :: x in GreenStarts(green, file, services) ==> x.service in services
  {
    if services != [] {
      var last := |services| - 1;
      GreenStartsAre(green, file, services[..last]);
      assert services == services[..last] + [services[last]];
    }
  }

  lemma BuiltPlansAccepted(strategy: Strategy, project: Option<string>, file: string, services: seq<string>)
    ensures Accepted(PlanFor(strategy, project, file, services))
  {
    var plan := PlanFor(strategy, project, file, services);
    forall i | 0 <= i < |plan| && plan[i].service in EXCLUSIVE_SERVICES && plan[i].kind == Start
      ensures Verified(plan, i, plan[i].service)
    {
      var service := plan[i].service;
      KnownAre(service);
      if strategy == Rolling {
        var head := Prologue(project, file)
                    + [UpStep("roll api (health-gated)", Start, "api", project, file, ["--no-deps"], "api")];
        RollAccepted(project, file, services, service);
        AcceptedAppend(head, RollBlocks(project, file, services), service);
      } else {
        var green := GreenName(project);
        var head := Prologue(project, file) + [UpStep("start green api", Start, "api", Some(green), file, [], "api")];
        var drains, starts := DrainBlocks(project, file, services), GreenStarts(green, file, services);
        var cut := [StopStep("cut traffic over to green", Cutover, project, file, "api")];
        DrainAccepted(project, file, services, service);
        AcceptedAppend(head, drains, service);
        AcceptedAppend(head + drains, cut, service);
        GreenStartsAre(green, file, services);
        AcceptedAppend(head + drains + cut, starts, service);
        AcceptedAppend(head + drains + cut + starts, plan[|plan| - 1..], service);
        assert plan == head + drains + cut + starts + plan[|plan| - 1..];
      }
      assert AcceptedFor(plan, service, false);
    }
  }

  // -- and the tags of every built plan match its commands --------------------

  lemma TagsAppend(a: seq<Step>, b: seq<Step>)
    requires TagsMatch(a) && TagsMatch(b)
    ensures TagsMatch(a + b)
  {
  }

  lemma ViewTag(step: Step, view: View)
    requires ViewOf(step) == view
    requires view.listing ==> view.command.Ps? && view.command.service == step.service
    requires view.command.Up? && Known(view.command.service) ==>
               step.kind == Start && step.service == view.command.service
    ensures TagMatches(step)
  {
  }

  lemma PlainTag(step: Step, view: View)
    requires ViewOf(step) == view && !view.listing
    requires view.command.Up? ==> !Known(view.command.service)
    ensures TagMatches(step)
  {
  }

  lemma ServiceBlockTags(block: seq<Step>, blue: string, s: string)
    requires 2 <= |block| <= 3 && forall i :: 0 <= i < |block| ==> block[i].service == s
    requires ViewOf(block[0]) == View(Stop(blue, s), false) && ViewOf(block[1]) == View(Ps(blue, s), true)
    requires |block| == 3 ==> ViewOf(block[2]) == View(Up(blue, s, true), false) && block[2].kind == Start
    ensures TagsMatch(block)
  {
  }

  lemma RollBlockTags(project: Option<string>, file: string, s: string)
    requires Known(s)
    ensures TagsMatch(RollBlock(project, file, s))
  {
    RollBlockReads(project, file, s);
    ServiceBlockTags(RollBlock(project, file, s), BlueName(project), s);
  }

  lemma DrainBlockTags(project: Option<string>, file: string, s: string)
    requires Known(s)
    ensures TagsMatch(DrainBlock(project, file, s))
  {
    DrainBlockReads(project, file, s);
    ServiceBlockTags(DrainBlock(project, file, s), BlueName(project), s);
  }

  lemma {:induction false} BlockTags(project: Option<string>, green: string, file: string, services: seq<string>)
    requires green != "" && forall s :: s in services ==> Known(s)
    ensures TagsMatch(RollBlocks(project, file, services)) && TagsMatch(DrainBlocks(project, file, services))
    ensures TagsMatch(GreenStarts(green, file, services))
  {
    if services != [] {
      var rest, s := services[..|services| - 1], services[|services| - 1];
      BlockTags(project, green, file, rest);
      RollBlockTags(project, file, s);
      TagsAppend(RollBlocks(project, file, rest), RollBlock(project, file, s));
      DrainBlockTags(project, file, s);
      TagsAppend(DrainBlocks(project, file, rest), DrainBlock(project, file, s));
      KnownAre(s);
      UpView(Some(green), file, s, "start green " + s, Start, s, false);
      ViewTag(GreenStart(green, file, s), View(Up(green, s, false), false));
      TagsAppend(GreenStarts(green, file, rest), [GreenStart(green, file, s)]);
    }
  }

  predicate Sparse(views: seq<View>) {
    forall v :: v in views ==> !v.listing && (v.command.Up? ==> !Known(v.command.service))
  }

  lemma SparseTags(plan: seq<Step>, views: seq<View>)
    requires Reads(plan, views) && Sparse(views)
    ensures TagsMatch(plan)
  {
    forall i | 0 <= i < |plan| ensures TagMatches(plan[i]) {
      assert ViewOf(plan[i]) == views[i] && views[i] in views;
      PlainTag(plan[i], views[i]);
    }
  }

  lemma NotExclusive()
    ensures !Known("api") && !Known("migrate")
  {
    assert |"api"| == 3 && |"migrate"| == 7 && |"bot"| == 3 && |"worker"| == 6;
    assert "api"[0] == 'a' && "bot"[0] == 'b';
  }

  /** So `StartsFollowEmptyListing` speaks of every plan the driver builds. */
  lemma BuiltPlansTagsMatch(strategy: Strategy, project: Option<string>, file: string, services: seq<string>)
    requires forall s :: s in services ==> Known(s)
    ensures TagsMatch(PlanFor(strategy, project, file, services))
  {
    var blue, green := BlueName(project), GreenName(project);
    BlockTags(project, green, file, services);
    NotExclusive();
    HeadReads(project, file);
    SparseTags(Prologue(project, file), [View(Config, false), View(Up(blue, "migrate", false), false)]);
    if strategy == Rolling {
      UpView(project, file, "api", "roll api (health-gated)", Start, "api", true);
      var api := UpStep("roll api (health-gated)", Start, "api", project, file, ["--no-deps"], "api");
      PlainTag(api, View(Up(blue, "api", true), false));
      TagsAppend(Prologue(project, file), [api]);
      TagsAppend(Prologue(project, file) + [api], RollBlocks(project, file, services));
    } else {
      UpView(Some(green), file, "api", "start green api", Start, "api", false);
      var api := UpStep("start green api", Start, "api", Some(green), file, [], "api");
      PlainTag(api, View(Up(green, "api", false), false));
      StopView("cut traffic over to green", Cutover, project, file, "api");
      var cut := StopStep("cut traffic over to green", Cutover, project, file, "api");
      PlainTag(cut, View(Stop(blue, "api"), false));
      var last := RetireTag(project, file);
      var drains, starts := DrainBlocks(project, file, services), GreenStarts(green, file, services);
      TagsAppend(Prologue(project, file), [api]);
      TagsAppend(Prologue(project, file) + [api], drains);
      TagsAppend(Prologue(project, file) + [api] + drains, [cut]);
      TagsAppend(Prologue(project, file) + [api] + drains + [cut], starts);
      TagsAppend(Prologue(project, file) + [api] + drains + [cut] + starts, [last]);
    }
  }

  lemma RetireTag(project: Option<string>, file: string) returns (last: Step)
    ensures last == Step("retire blue api container", "api", Teardown,
                         Compose(project, On(file, ["rm", "--force", "-v", "api"])))
    ensures TagMatches(last)
  {
    var rm := On(file, ["rm", "--force", "-v", "api"]);
    assert rm[4] == "rm" && rm[7] == "api";
    ParseCompose(project, rm);
    last := Step("retire blue api container", "api", Teardown, Compose(project, rm));
  }

  /** The whole driver, end to end. */
  method Deploy(strategy: string, file: string, project: Option<string>, exclusive: seq<string>, runner: Runner)
    returns (r: Result<(), DeployError>)
    requires ParseStrategy(strategy).Some? && forall s :: s in exclusive ==> Known(s)
    requires Lawful(runner.world, runner.behaviour) && NoExclusiveDependency(runner.world)
    requires runner.states == [runner.live] && runner.outcomes == []
    requires StartOk(runner.world, ParseStrategy(strategy).value, BlueName(project), exclusive, runner.live)
    modifies runner
    ensures |runner.states| > 0 && runner.states[|runner.states| - 1] == runner.live && Safe(runner.states)
    ensures r.Ok? <==> |runner.outcomes| == |PlanFor(ParseStrategy(strategy).value, project, file, exclusive)| &&
                       forall i :: 0 <= i < |runner.outcomes| ==>
                         Passes(PlanFor(ParseStrategy(strategy).value, project, file, exclusive)[i], runner.outcomes[i])
    ensures r != Err(DoubleConsumers)
  {
    var plan := BuildPlan(strategy, file, project, exclusive);
    var deployer := new Deployer(runner, plan.value);
    BuiltPlansAccepted(ParseStrategy(strategy).value, project, file, exclusive);
    r := deployer.Execute();
    BuiltPlansAreSafe(runner.world, ParseStrategy(strategy).value, project, file, exclusive, runner.states,
                      runner.outcomes);
  }

  // -- listings that do not tell the truth ------------------------------------

  /** `execute` ignores the exit code of a listing: where a failing `ps` may print nothing, any
      built plan can double any service it rolls, whatever old generation of it is running. */
  lemma SilentListingCanDouble(w: World, strategy: Strategy, project: Option<string>, file: string,
                               services: seq<string>,
                               former: Container)
    requires !w.truthfulPs && forall s :: s in services ==> Known(s)
    requires former.service in services && former.project == BlueName(project) && former.image != w.image
    ensures exists states, outcomes ::
              IsRun(w, PlanFor(strategy, project, file, services), states, outcomes) && states[0] == {former} &&
                !Safe(states)
  {
    PlanReads(strategy, project, file, services);
    var states, outcomes := StubbornDoubles(w, strategy, BlueName(project), services, {former}, former);
    ViewRunIsRun(w, PlanFor(strategy, project, file, services), PlanViews(strategy, BlueName(project), services),
                 states, outcomes);
  }
}
