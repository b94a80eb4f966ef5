/** Any plan whatever: when all of its runs are safe, and when its starts follow listings. */
module PlanSafety {
  import opened Prelude
  import opened DeployPlan
  import opened DeployRun
  import opened DeploySafety

  function ViewsOf(plan: seq<Step>): (views: seq<View>)
    ensures Reads(plan, views)
  {
    seq(|plan|, i requires 0 <= i < |plan| => ViewOf(plan[i]))
  }

  /** The step is a verification that, once it passed, vouches for the absence of x. */
  predicate Bars(w: World, v: View, x: Container) {
    w.truthfulPs && v.listing && v.command.Ps? && x.project == v.command.project && x.service == v.command.service
  }

  predicate MayRemove(w: World, c: Command, x: Container) {
    match c
    case Up(project, _, _) => x.project == project && Starts(w, c, x.service)
    case Stop(project, service) => x.project == project && x.service == service
    case Remove(project, service) => x.project == project && x.service == service
    case _ => false
  }

  function Brought(w: World, c: Command): (up: set<Container>)
    ensures forall x :: x in up <==>
              c.Up? && x.project == c.project && Starts(w, c, x.service) && x.image == w.image
  {
    if c.Up? then
      var services := {c.service} + (if c.noDeps then {} else w.deps(c.service));
      set s | s in services :: Container(c.project, s, w.image)
    else {}
  }

  function Next(w: World, v: View, most: set<Container>): set<Container> {
    (set x | x in most && !Bars(w, v, x)) + Brought(w, v.command)
  }

  /** What may be live before step k, at most: what was there or may have been brought up, less
      what a verification since has vouched for. */
  function Most(w: World, views: seq<View>, start: set<Container>, k: nat): set<Container>
    requires k <= |views|
  {
    if k == 0 then start else Next(w, views[k - 1], Most(w, views, start, k - 1))
  }

  /** Some step before j may take x away. */
  predicate MayGo(w: World, views: seq<View>, j: nat, x: Container)
    requires j <= |views|
  {
    exists i :: 0 <= i < j && MayRemove(w, views[i].command, x)
  }

  /** Step k can be reached: what each verification before it must miss may have gone by then. */
  ghost predicate Reach(w: World, views: seq<View>, start: set<Container>, k: nat)
    requires k <= |views|
  {
    forall j, x :: 0 <= j < k && x in start && Bars(w, views[j], x) ==> MayGo(w, views, j, x)
  }

  ghost predicate Single(live: set<Container>) {
    forall service :: Known(service) ==> AtMostOne(live, service)
  }

  /** If step k can be reached, at most one generation may be live before it, and its command is
      one the driver knows. */
  ghost predicate SafeAt(w: World, views: seq<View>, start: set<Container>, k: nat)
    requires k <= |views|
  {
    Reach(w, views, start, k) ==> Single(Most(w, views, start, k)) && (k < |views| ==> !views[k].command.Unknown?)
  }

  /** A scan of the plan decides it. */
  ghost predicate PlanSafe(w: World, views: seq<View>, start: set<Container>) {
    forall k :: 0 <= k <= |views| ==> SafeAt(w, views, start, k)
  }

  // -- no run has more than that -----------------------------------------------

  predicate Passing(v: View, o: Outcome) {
    if v.listing then Blank(o.output) else o.code == 0
  }

  ghost predicate Did(w: World, v: View, before: set<Container>, after: set<Container>, o: Outcome) {
    Permitted(w, v.command, before, after, o)
  }

  /** `IsRun`, said of what the steps mean. */
  ghost predicate Trace(w: World, views: seq<View>, states: seq<set<Container>>, outcomes: seq<Outcome>) {
    && |outcomes| <= |views| && |states| == |outcomes| + 1
    && (forall i :: 0 <= i < |outcomes| ==> Did(w, views[i], states[i], states[i + 1], outcomes[i]))
    && (forall i :: 0 <= i < |outcomes| - 1 ==> Passing(views[i], outcomes[i]))
  }

  lemma RunIsTrace(w: World, plan: seq<Step>, views: seq<View>, states: seq<set<Container>>, outcomes: seq<Outcome>)
    requires Reads(plan, views) && IsRun(w, plan, states, outcomes)
    ensures Trace(w, views, states, outcomes)
  {
    forall i | 0 <= i < |outcomes|
      ensures Did(w, views[i], states[i], states[i + 1], outcomes[i])
      ensures Passes(plan[i], outcomes[i]) <==> Passing(views[i], outcomes[i])
    {
      assert ViewOf(plan[i]) == views[i];
    }
  }

  /** What disappeared was taken away by a step that may do so. */
  lemma {:induction false} GoneWasRemoved(w: World, views: seq<View>, states: seq<set<Container>>,
                                          outcomes: seq<Outcome>,
                                          x: Container, j: nat)
    requires Trace(w, views, states, outcomes) && j <= |outcomes|
    requires forall i :: 0 <= i < j ==> !views[i].command.Unknown?
    requires x in states[0] && x !in states[j]
    ensures MayGo(w, views, j, x)
  {
    if x in states[j - 1] {
      assert Did(w, views[j - 1], states[j - 1], states[j], outcomes[j - 1]);
      assert MayRemove(w, views[j - 1].command, x);
    } else {
      GoneWasRemoved(w, views, states, outcomes, x, j - 1);
    }
  }

  lemma StepBound(w: World, v: View, before: set<Container>, after: set<Container>, o: Outcome, most: set<Container>)
    requires Did(w, v, before, after, o) && !v.command.Unknown? && before <= most
    requires Passing(v, o) || !v.command.Ps?
    ensures after <= Next(w, v, most)
  {
  }

  lemma ReachNext(w: World, views: seq<View>, states: seq<set<Container>>, outcomes: seq<Outcome>, k: nat)
    requires Trace(w, views, states, outcomes) && k < |outcomes| && Passing(views[k], outcomes[k])
    requires Reach(w, views, states[0], k) && forall i :: 0 <= i < k ==> !views[i].command.Unknown?
    ensures Reach(w, views, states[0], k + 1)
  {
    var v := views[k];
    assert Did(w, v, states[k], states[k + 1], outcomes[k]);
    forall x | x in states[0] && Bars(w, v, x) ensures MayGo(w, views, k, x) {
      assert !Running(v.command.project, v.command.service, states[k]);
      GoneWasRemoved(w, views, states, outcomes, x, k);
    }
  }

  lemma {:induction false} PassedBound(w: World, views: seq<View>, states: seq<set<Container>>, outcomes: seq<Outcome>,
                                       k: nat)
    requires Trace(w, views, states, outcomes) && PlanSafe(w, views, states[0])
    requires k <= |outcomes| && forall i :: 0 <= i < k ==> Passing(views[i], outcomes[i])
    ensures Reach(w, views, states[0], k) && states[k] <= Most(w, views, states[0], k)
  {
    if k > 0 {
      PassedBound(w, views, states, outcomes, k - 1);
      NothingUnknown(w, views, states[0], k - 1);
      assert SafeAt(w, views, states[0], k - 1);
      ReachNext(w, views, states, outcomes, k - 1);
      assert Did(w, views[k - 1], states[k - 1], states[k], outcomes[k - 1]);
      StepBound(w, views[k - 1], states[k - 1], states[k], outcomes[k - 1], Most(w, views, states[0], k - 1));
    }
  }

  lemma NothingUnknown(w: World, views: seq<View>, start: set<Container>, k: nat)
    requires PlanSafe(w, views, start) && k <= |views| && Reach(w, views, start, k)
    ensures forall i :: 0 <= i < k ==> !views[i].command.Unknown?
  {
    forall i | 0 <= i < k ensures !views[i].command.Unknown? {
      assert SafeAt(w, views, start, i) && Reach(w, views, start, i);
    }
  }

  lemma FewerIsSingle(less: set<Container>, more: set<Container>)
    requires less <= more && Single(more)
    ensures Single(less)
  {
    forall service | Known(service) ensures AtMostOne(less, service) {
      assert AtMostOne(more, service);
    }
  }

  /** A last step that did not pass: a listing changes nothing, and no other step bars anything. */
  lemma LastIsSingle(w: World, views: seq<View>, start: set<Container>, k: nat,
                     before: set<Container>, after: set<Container>, o: Outcome)
    requires PlanSafe(w, views, start) && k < |views| && Reach(w, views, start, k)
    requires before <= Most(w, views, start, k) && Did(w, views[k], before, after, o)
    ensures Single(after)
  {
    var most := Most(w, views, start, k);
    assert SafeAt(w, views, start, k);
    if views[k].command.Ps? {
      FewerIsSingle(after, most);
    } else {
      StepBound(w, views[k], before, after, o, most);
      assert Reach(w, views, start, k + 1) && SafeAt(w, views, start, k + 1);
      FewerIsSingle(after, Most(w, views, start, k + 1));
    }
  }

  lemma RunIsSingle(w: World, views: seq<View>, states: seq<set<Container>>, outcomes: seq<Outcome>, k: nat)
    requires Trace(w, views, states, outcomes) && PlanSafe(w, views, states[0]) && k <= |outcomes|
    ensures Single(states[k])
  {
    if k < |outcomes| {
      PassedBound(w, views, states, outcomes, k);
      assert SafeAt(w, views, states[0], k);
      FewerIsSingle(states[k], Most(w, views, states[0], k));
    } else if k > 0 {
      PassedBound(w, views, states, outcomes, k - 1);
      LastIsSingle(w, views, states[0], k - 1, states[k - 1], states[k], outcomes[k - 1]);
    } else {
      assert Reach(w, views, states[0], 0) && SafeAt(w, views, states[0], 0);
      FewerIsSingle(states[0], Most(w, views, states[0], 0));
    }
  }

  // -- and some run has all of that ----------------------------------------------

  /** A verification between i and k must miss x. */
  predicate Doomed(w: World, views: seq<View>, i: nat, k: nat, x: Container)
    requires k <= |views|
  {
    exists j :: i <= j < k && Bars(w, views[j], x)
  }

  /** The run towards step k: whatever no verification on the way must miss is brought up and
      stays, and what was there stays until something may take it away. */
  predicate Kept(w: World, views: seq<View>, start: set<Container>, k: nat, i: nat, x: Container)
    requires i <= k <= |views|
  {
    || (x in Most(w, views, start, i) && !Doomed(w, views, i, k, x))
    || (x in start && !MayGo(w, views, i, x))
  }

  function Towards(w: World, views: seq<View>, start: set<Container>, k: nat, i: nat): set<Container>
    requires i <= k <= |views|
  {
    set x | x in Most(w, views, start, i) + start && Kept(w, views, start, k, i, x)
  }

  function Answer(w: World, v: View): Outcome {
    if v.command.Ps? && !v.listing then Outcome(0, "x")
    else if v.command.Ps? && !w.truthfulPs then Outcome(1, "")
    else DONE
  }

  lemma DoomedNext(w: World, views: seq<View>, i: nat, k: nat, x: Container)
    requires i < k <= |views|
    ensures Doomed(w, views, i, k, x) <==> Bars(w, views[i], x) || Doomed(w, views, i + 1, k, x)
  {
  }

  lemma MayGoNext(w: World, views: seq<View>, i: nat, x: Container)
    requires i < |views|
    ensures MayGo(w, views, i + 1, x) <==> MayGo(w, views, i, x) || MayRemove(w, views[i].command, x)
  {
  }

  /** One step further: what may go and need not stay is gone, and what is to stay has come. */
  lemma KeptNext(w: World, views: seq<View>, start: set<Container>, k: nat, i: nat, x: Container)
    requires i < k <= |views| && Reach(w, views, start, k)
    ensures Kept(w, views, start, k, i, x) && !MayRemove(w, views[i].command, x) ==> Kept(w, views, start, k, i + 1, x)
    ensures Kept(w, views, start, k, i + 1, x) ==>
              Kept(w, views, start, k, i, x) || x in Brought(w, views[i].command)
    ensures Bars(w, views[i], x) ==> !Kept(w, views, start, k, i, x)
  {
    DoomedNext(w, views, i, k, x);
    MayGoNext(w, views, i, x);
  }

  lemma TowardsStep(w: World, views: seq<View>, start: set<Container>, k: nat, i: nat)
    requires i < k <= |views| && Reach(w, views, start, k) && !views[i].command.Unknown?
    ensures ViewStep(w, views[i], Towards(w, views, start, k, i), Towards(w, views, start, k, i + 1),
                     Answer(w, views[i]))
  {
    var v, before, after := views[i], Towards(w, views, start, k, i), Towards(w, views, start, k, i + 1);
    forall x
      ensures x in before && !MayRemove(w, v.command, x) ==> x in after
      ensures x in after ==> x in before || x in Brought(w, v.command)
      ensures Bars(w, v, x) ==> x !in before
    {
      KeptNext(w, views, start, k, i, x);
      InTowards(w, views, start, k, i, x);
      InTowards(w, views, start, k, i + 1, x);
    }
    StepAllowed(w, v, before, after);
  }

  lemma InTowards(w: World, views: seq<View>, start: set<Container>, k: nat, i: nat, x: Container)
    requires i <= k <= |views|
    ensures x in Towards(w, views, start, k, i) <==> Kept(w, views, start, k, i, x)
  {
  }

  lemma StepAllowed(w: World, v: View, before: set<Container>, after: set<Container>)
    requires !v.command.Unknown?
    requires forall x :: x in before && !MayRemove(w, v.command, x) ==> x in after
    requires forall x :: x in after ==> x in before || x in Brought(w, v.command)
    requires forall x :: x in before ==> !Bars(w, v, x)
    ensures ViewStep(w, v, before, after, Answer(w, v))
  {
    assert "x"[0] in "x" && !Blank("x");
  }

  function TowardsStates(w: World, views: seq<View>, start: set<Container>, k: nat): (states: seq<set<Container>>)
    requires k <= |views|
    ensures |states| == k + 1 && forall i :: 0 <= i <= k ==> states[i] == Towards(w, views, start, k, i)
  {
    seq(k + 1, i requires 0 <= i <= k => Towards(w, views, start, k, i))
  }

  lemma TowardsIsRun(w: World, views: seq<View>, start: set<Container>, k: nat)
    returns (states: seq<set<Container>>, outcomes: seq<Outcome>)
    requires k <= |views| && Reach(w, views, start, k) && forall i :: 0 <= i < k ==> !views[i].command.Unknown?
    ensures ViewRun(w, views, states, outcomes) && |outcomes| == k && states[0] == start
    ensures Most(w, views, start, k) <= states[k]
  {
    states := TowardsStates(w, views, start, k);
    outcomes := seq(k, i requires 0 <= i < k => Answer(w, views[i]));
    forall i | 0 <= i < k ensures ViewStep(w, views[i], states[i], states[i + 1], outcomes[i]) {
      TowardsStep(w, views, start, k, i);
    }
    forall x ensures x in states[0] <==> x in start {
      InTowards(w, views, start, k, 0, x);
    }
  }

  lemma LeastUnsafe(w: World, views: seq<View>, start: set<Container>) returns (k: nat)
    requires !PlanSafe(w, views, start)
    ensures k <= |views| && Reach(w, views, start, k)
    ensures !Single(Most(w, views, start, k)) || (k < |views| && views[k].command.Unknown?)
    ensures forall i :: 0 <= i < k ==> !views[i].command.Unknown?
  {
    k :| 0 <= k <= |views| && !SafeAt(w, views, start, k);
    if i :| 0 <= i < k && views[i].command.Unknown? {
      k := FirstUnknown(views, i);
    }
  }

  lemma {:induction false} FirstUnknown(views: seq<View>, i: nat) returns (n: nat)
    requires i < |views| && views[i].command.Unknown?
    ensures n <= i && views[n].command.Unknown? && forall j :: 0 <= j < n ==> !views[j].command.Unknown?
  {
    n := i;
    if j :| 0 <= j < i && views[j].command.Unknown? {
      n := FirstUnknown(views, j);
    }
  }

  lemma UnsafePlanHasUnsafeRun(w: World, plan: seq<Step>, start: set<Container>)
    returns (states: seq<set<Container>>, outcomes: seq<Outcome>)
    requires !PlanSafe(w, ViewsOf(plan), start)
    ensures IsRun(w, plan, states, outcomes) && states[0] == start && !Safe(states)
  {
    var views := ViewsOf(plan);
    var k := LeastUnsafe(w, views, start);
    states, outcomes := TowardsIsRun(w, views, start, k);
    if Single(Most(w, views, start, k)) {
      states, outcomes := AnythingCanDouble(w, views, states, outcomes);
    } else {
      var service :| Known(service) && !AtMostOne(Most(w, views, start, k), service);
      assert !AtMostOne(states[k], service);
    }
    ViewRunIsRun(w, plan, views, states, outcomes);
  }

  /** A command the driver does not know may do anything. */
  lemma AnythingCanDouble(w: World, views: seq<View>, states: seq<set<Container>>, outcomes: seq<Outcome>)
    returns (more: seq<set<Container>>, all: seq<Outcome>)
    requires ViewRun(w, views, states, outcomes) && |outcomes| < |views| && views[|outcomes|].command.Unknown?
    ensures ViewRun(w, views, more, all) && more[0] == states[0] && !Safe(more)
  {
    var k := |outcomes|;
    var two := {Container("a", "worker", ""), Container("b", "worker", "")};
    more, all := states + [two], outcomes + [DONE];
    forall i | 0 <= i < k + 1 ensures ViewStep(w, views[i], more[i], more[i + 1], all[i]) {
      if i < k { assert more[i] == states[i] && more[i + 1] == states[i + 1] && all[i] == outcomes[i]; }
    }
    assert Container("a", "worker", "") in two && Container("b", "worker", "") in two && "a"[0] != "b"[0];
    assert Known(EXCLUSIVE_SERVICES[0]) && !AtMostOne(more[k + 1], "worker");
  }

  /** For every plan, accepted or not, in every world and from every start: all runs are safe
      exactly when the scan finds no step that can be reached with two generations. */
  lemma PlanSafeIff(w: World, plan: seq<Step>, start: set<Container>)
    ensures (forall states, outcomes :: IsRun(w, plan, states, outcomes) && states[0] == start ==> Safe(states))
            <==> PlanSafe(w, ViewsOf(plan), start)
  {
    if PlanSafe(w, ViewsOf(plan), start) {
      forall states, outcomes | IsRun(w, plan, states, outcomes) && states[0] == start ensures Safe(states) {
        RunIsTrace(w, plan, ViewsOf(plan), states, outcomes);
        forall k | 0 <= k < |states| ensures Single(states[k]) {
          RunIsSingle(w, ViewsOf(plan), states, outcomes, k);
        }
      }
    } else {
      var states, outcomes := UnsafePlanHasUnsafeRun(w, plan, start);
    }
  }

  // -- when starts follow listings ------------------------------------------------

  predicate Lists(step: Step, service: string) {
    Parse(step.argv).Ps? && Parse(step.argv).service == service
  }

  predicate Verifies(step: Step, service: string) {
    IsDrainVerification(step) && Lists(step, service)
  }

  predicate MayStart(w: World, step: Step, service: string) {
    Known(service) && Starts(w, Parse(step.argv), service)
  }

  ghost predicate VerifiedBefore(plan: seq<Step>, i: int, service: string)
    requires i <= |plan|
  {
    exists j :: 0 <= j < i && Verifies(plan[j], service)
  }

  /** Whatever may bring up an exclusive service has a verification before it whose command lists
      that service. */
  ghost predicate VerifiesFirst(w: World, plan: seq<Step>) {
    forall i, service :: 0 <= i < |plan| && MayStart(w, plan[i], service) ==> VerifiedBefore(plan, i, service)
  }

  ghost predicate HeardEmpty(plan: seq<Step>, outcomes: seq<Outcome>, i: int, service: string)
    requires i <= |outcomes| <= |plan|
  {
    exists j :: 0 <= j < i && Lists(plan[j], service) && Blank(outcomes[j].output)
  }

  /** What may bring up an exclusive service came, in this run, after an empty listing of it. */
  ghost predicate StartsFollowListings(w: World, plan: seq<Step>, outcomes: seq<Outcome>) {
    && |outcomes| <= |plan|
    && forall i, service :: 0 <= i < |outcomes| && MayStart(w, plan[i], service) ==>
      HeardEmpty(plan, outcomes, i, service)
  }

  lemma PassedListingIsEmpty(w: World, plan: seq<Step>, states: seq<set<Container>>, outcomes: seq<Outcome>,
                             i: nat, service: string)
    requires IsRun(w, plan, states, outcomes) && i < |outcomes| && VerifiedBefore(plan, i, service)
    ensures HeardEmpty(plan, outcomes, i, service)
  {
    var j :| 0 <= j < i && Verifies(plan[j], service);
    assert Passes(plan[j], outcomes[j]);
  }

  /** Nothing runs and nothing comes up; of the listings, only verifications print nothing. */
  lemma IdleRun(w: World, plan: seq<Step>, n: nat) returns (states: seq<set<Container>>, outcomes: seq<Outcome>)
    requires n <= |plan|
    ensures IsRun(w, plan, states, outcomes) && |outcomes| == n
    ensures forall j, service :: 0 <= j < n && Lists(plan[j], service) && Blank(outcomes[j].output) ==>
              Verifies(plan[j], service)
  {
    var views := ViewsOf(plan);
    states := seq(n + 1, _ => {});
    outcomes := seq(n, i requires 0 <= i < n => Answer(w, views[i]));
    forall i | 0 <= i < n ensures ViewStep(w, views[i], states[i], states[i + 1], outcomes[i]) {
      IdleStep(w, views[i]);
    }
    ViewRunIsRun(w, plan, views, states, outcomes);
    forall j, service | 0 <= j < n && Lists(plan[j], service) && Blank(outcomes[j].output)
      ensures Verifies(plan[j], service)
    {
      assert ViewOf(plan[j]) == views[j];
      if !views[j].listing { PlainListingsPrint(w, views[j]); }
    }
  }

  lemma PlainListingsPrint(w: World, v: View)
    requires v.command.Ps? && !v.listing
    ensures !Blank(Answer(w, v).output)
  {
    assert "x"[0] in "x";
  }

  lemma IdleStep(w: World, v: View)
    ensures ViewStep(w, v, {}, {}, Answer(w, v))
  {
    assert "x"[0] in "x" && !Blank("x");
  }

  lemma UnverifiedStartIsUnheard(w: World, plan: seq<Step>, i: nat, service: string)
    returns (states: seq<set<Container>>, outcomes: seq<Outcome>)
    requires i < |plan| && MayStart(w, plan[i], service) && !VerifiedBefore(plan, i, service)
    ensures IsRun(w, plan, states, outcomes) && !StartsFollowListings(w, plan, outcomes)
  {
    states, outcomes := IdleRun(w, plan, i + 1);
    assert !HeardEmpty(plan, outcomes, i, service);
  }

  /** In all runs of a plan everything that may bring up an exclusive service follows an empty
      listing of it, exactly when the plan verifies first. */
  lemma StartsFollowListingsIff(w: World, plan: seq<Step>)
    ensures (forall states, outcomes :: IsRun(w, plan, states, outcomes) ==> StartsFollowListings(w, plan, outcomes))
            <==> VerifiesFirst(w, plan)
  {
    if VerifiesFirst(w, plan) {
      forall states, outcomes | IsRun(w, plan, states, outcomes) ensures StartsFollowListings(w, plan, outcomes) {
        forall i, service | 0 <= i < |outcomes| && MayStart(w, plan[i], service)
          ensures HeardEmpty(plan, outcomes, i, service)
        {
          PassedListingIsEmpty(w, plan, states, outcomes, i, service);
        }
      }
    } else {
      var i, service :| 0 <= i < |plan| && MayStart(w, plan[i], service) && !VerifiedBefore(plan, i, service);
      var states, outcomes := UnverifiedStartIsUnheard(w, plan, i, service);
    }
  }

  /** Accepted plans whose tags match do so, if no exclusive service comes up as a dependency. */
  lemma TaggedPlansVerifyFirst(w: World, plan: seq<Step>)
    requires Accepted(plan) && TagsMatch(plan)
    requires forall i, service :: 0 <= i < |plan| && MayStart(w, plan[i], service) ==>
               Parse(plan[i].argv).service == service
    ensures VerifiesFirst(w, plan)
  {
    forall i, service | 0 <= i < |plan| && MayStart(w, plan[i], service)
      ensures VerifiedBefore(plan, i, service)
    {
      assert TagMatches(plan[i]);
      var j :| 0 <= j < i && plan[j].service == plan[i].service && IsDrainVerification(plan[j]);
      assert TagMatches(plan[j]);
      assert Verifies(plan[j], service);
    }
  }

  // -- accepted plans the scan rejects -------------------------------------------

  /** The plan check never asks for a second drain: it accepts two starts after one listing. */
  lemma AcceptedPlanCanDouble(w: World, file: string)
    ensures Accepted(TwoStarts(file)) && !PlanSafe(w, ViewsOf(TwoStarts(file)), {})
    ensures exists states, outcomes :: IsRun(w, TwoStarts(file), states, outcomes) && states[0] == {} && !Safe(states)
  {
    TwoStartsAccepted(file);
    var states, outcomes := TwoStartsDouble(w, file);
  }

  lemma TwoStartsAccepted(file: string)
    ensures Accepted(TwoStarts(file))
  {
    WaitView("wait", None, file, "worker");
    AcceptedAfterFirst(TwoStarts(file));
  }

  lemma TwoStartsDouble(w: World, file: string) returns (states: seq<set<Container>>, outcomes: seq<Outcome>)
    ensures IsRun(w, TwoStarts(file), states, outcomes) && states[0] == {} && !Safe(states)
    ensures !PlanSafe(w, ViewsOf(TwoStarts(file)), {})
  {
    var views := TwoStartsReads(file);
    states, outcomes := TwoStartsRun(w, views);
    UnsafeRunRefutes(w, TwoStarts(file), views, states, outcomes);
  }

  lemma UnsafeRunRefutes(w: World, plan: seq<Step>, views: seq<View>, states: seq<set<Container>>,
                         outcomes: seq<Outcome>)
    requires Reads(plan, views) && ViewRun(w, views, states, outcomes) && !Safe(states)
    ensures IsRun(w, plan, states, outcomes) && !PlanSafe(w, ViewsOf(plan), states[0])
  {
    ViewRunIsRun(w, plan, views, states, outcomes);
    PlanSafeIff(w, plan, states[0]);
  }

  lemma TwoStartsReads(file: string) returns (views: seq<View>)
    ensures views == [View(Ps(DEFAULT_PROJECT, "worker"), true), View(Up(DEFAULT_PROJECT, "worker", true), false),
                      View(Up("green", "worker", true), false)]
    ensures Reads(TwoStarts(file), views)
  {
    WaitView("wait", None, file, "worker");
    UpView(None, file, "worker", "start", Start, "worker", true);
    UpView(Some("green"), file, "worker", "start again", Start, "worker", true);
    views := [View(Ps(DEFAULT_PROJECT, "worker"), true), View(Up(DEFAULT_PROJECT, "worker", true), false),
              View(Up("green", "worker", true), false)];
    ReadsEach(TwoStarts(file), views);
  }

  lemma AcceptedAfterFirst(plan: seq<Step>)
    requires plan != [] && ViewOf(plan[0]).listing && plan[0].kind == Drain
    requires forall i :: 0 <= i < |plan| ==> plan[i].service == plan[0].service
    ensures Accepted(plan)
  {
  }

  function TwoStarts(file: string): seq<Step> {
    [WaitStep("wait", None, file, "worker"),
     UpStep("start", Start, "worker", None, file, ["--no-deps"], "worker"),
     UpStep("start again", Start, "worker", Some("green"), file, ["--no-deps"], "worker")]
  }

  lemma TwoStartsRun(w: World, views: seq<View>) returns (states: seq<set<Container>>, outcomes: seq<Outcome>)
    requires views == [View(Ps(DEFAULT_PROJECT, "worker"), true), View(Up(DEFAULT_PROJECT, "worker", true), false),
                       View(Up("green", "worker", true), false)]
    ensures ViewRun(w, views, states, outcomes) && states[0] == {} && !Safe(states)
  {
    var x, y := Container(DEFAULT_PROJECT, "worker", w.image), Container("green", "worker", w.image);
    assert DEFAULT_PROJECT[0] != "green"[0];
    states := [{}, {}, {x}, {x, y}];
    var done := Outcome(0, "");
    outcomes := [done, done, done];
    assert ViewStep(w, views[0], states[0], states[1], done);
    assert ViewStep(w, views[1], states[1], states[2], done);
    assert ViewStep(w, views[2], states[2], states[3], done);
    assert Known(EXCLUSIVE_SERVICES[0]) && !AtMostOne(states[3], "worker");
  }

  /** A verification whose command lists another service passes the plan check all the same. */
  lemma MislabelledPlanCanDouble(w: World, file: string, running: Container)
    requires running.service == "worker" && running.project == DEFAULT_PROJECT && running.image != w.image
    ensures Accepted(Mislabelled(file)) && !TagsMatch(Mislabelled(file)) && !VerifiesFirst(w, Mislabelled(file))
    ensures !PlanSafe(w, ViewsOf(Mislabelled(file)), {running})
    ensures exists states, outcomes ::
              IsRun(w, Mislabelled(file), states, outcomes) && states[0] == {running} && !Safe(states)
  {
    WaitView("wait", None, file, "api");
    UpView(None, file, "worker", "start", Start, "worker", true);
    ListThenStart(w, Mislabelled(file), file, "api", running);
    assert !TagMatches(Mislabelled(file)[0]);
    assert Parse(Mislabelled(file)[0].argv) == Ps(DEFAULT_PROJECT, "api");
    assert Parse(Mislabelled(file)[1].argv) == Up(DEFAULT_PROJECT, "worker", true);
    assert MayStart(w, Mislabelled(file)[1], "worker");
    assert !Verifies(Mislabelled(file)[0], "worker");
  }

  function Mislabelled(file: string): seq<Step> {
    [WaitStep("wait", None, file, "api").(service := "worker"),
     UpStep("start", Start, "worker", None, file, ["--no-deps"], "worker")]
  }

  /** So does one that lists another project than the one the old generation runs in, and here
      every tag matches its command. */
  lemma OtherProjectCanDouble(w: World, file: string, running: Container)
    requires running.service == "worker" && running.project != DEFAULT_PROJECT
    ensures Accepted(ListedHere(file)) && TagsMatch(ListedHere(file))
    ensures !PlanSafe(w, ViewsOf(ListedHere(file)), {running})
    ensures exists states, outcomes ::
              IsRun(w, ListedHere(file), states, outcomes) && states[0] == {running} && !Safe(states)
  {
    WaitView("wait", None, file, "worker");
    UpView(None, file, "worker", "start", Start, "worker", true);
    ListThenStart(w, ListedHere(file), file, "worker", running);
    assert TagMatches(ListedHere(file)[0]) && TagMatches(ListedHere(file)[1]);
  }

  function ListedHere(file: string): seq<Step> {
    [WaitStep("wait", None, file, "worker"),
     UpStep("start", Start, "worker", None, file, ["--no-deps"], "worker")]
  }

  lemma ListThenStart(w: World, plan: seq<Step>, file: string, listed: string, running: Container)
    requires |plan| == 2 && ViewOf(plan[0]) == View(Ps(DEFAULT_PROJECT, listed), true) && plan[0].kind == Drain
    requires plan[0].service == "worker" && plan[1] == UpStep("start", Start, "worker", None, file, ["--no-deps"],
                                                              "worker")
    requires running.service == "worker" && running != Container(DEFAULT_PROJECT, "worker", w.image)
    requires running.project == DEFAULT_PROJECT ==> listed != "worker"
    ensures Accepted(plan) && !PlanSafe(w, ViewsOf(plan), {running})
    ensures exists states, outcomes :: IsRun(w, plan, states, outcomes) && states[0] == {running} && !Safe(states)
  {
    UpView(None, file, "worker", "start", Start, "worker", true);
    var views := [View(Ps(DEFAULT_PROJECT, listed), true), View(Up(DEFAULT_PROJECT, "worker", true), false)];
    ReadsEach(plan, views);
    var states, outcomes := ListThenStartRun(w, views, listed, running);
    UnsafeRunRefutes(w, plan, views, states, outcomes);
    AcceptedAfterFirst(plan);
  }

  lemma ListThenStartRun(w: World, views: seq<View>, listed: string, running: Container)
    returns (states: seq<set<Container>>, outcomes: seq<Outcome>)
    requires views == [View(Ps(DEFAULT_PROJECT, listed), true), View(Up(DEFAULT_PROJECT, "worker", true), false)]
    requires running.service == "worker" && running != Container(DEFAULT_PROJECT, "worker", w.image)
    requires running.project == DEFAULT_PROJECT ==> listed != "worker"
    ensures ViewRun(w, views, states, outcomes) && states[0] == {running} && !Safe(states)
  {
    var both := {running, Container(DEFAULT_PROJECT, "worker", w.image)};
    states, outcomes := [{running}, {running}, both], [DONE, DONE];
    assert ViewStep(w, views[0], states[0], states[1], DONE);
    assert ViewStep(w, views[1], states[1], states[2], DONE);
    assert Known(EXCLUSIVE_SERVICES[0]) && !AtMostOne(states[2], "worker");
  }
}
