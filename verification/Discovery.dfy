/** The location-discovery worklist of the Leaseweb doctor. */
module Discovery {
  import opened Prelude

  datatype Eligibility = Available | Empty | Ineligible | FatalAuthentication | Indecisive

  /** One call of the provider. */
  datatype Outcome = Raised | Answered(eligibility: Eligibility, discovered: seq<string>)

  datatype Call = Call(location: string, outcome: Outcome)

  /** The outcome of the last call for the location. */
  function Last(calls: seq<Call>, location: string): Option<Outcome> {
    if calls == [] then None
    else if calls[|calls| - 1].location == location then Some(calls[|calls| - 1].outcome)
    else Last(calls[..|calls| - 1], location)
  }

  /** Probed, or its last attempt raised. */
  predicate Settled(calls: seq<Call>, location: string) {
    Last(calls, location).Some?
  }

  /** Some answer reported the location. */
  ghost predicate Reported(calls: seq<Call>, location: string) {
    exists i :: 0 <= i < |calls| && calls[i].outcome.Answered? && location in calls[i].outcome.discovered
  }

  /** What the provider may answer: anything at any time, within a finite universe. */
  ghost predicate Within(world: (nat, string) -> Outcome, universe: set<string>) {
    forall n, location :: world(n, location).Answered? ==>
      forall extra :: extra in world(n, location).discovered ==> extra in universe
  }

  /** The recorded probes are the last answers. */
  ghost predicate Recorded(probes: map<string, Outcome>, calls: seq<Call>) {
    forall location ::
      && (location in probes ==> Last(calls, location) == Some(probes[location]) && probes[location].Answered?)
      && (location !in probes ==> Last(calls, location) == None || Last(calls, location) == Some(Raised))
  }

  /** Whatever is waited for or was reported is in the queue or settled. */
  ghost predicate Covered(candidates: seq<string>, queue: seq<string>, calls: seq<Call>) {
    && (forall location :: location in candidates ==> location in queue || Settled(calls, location))
    && (forall location :: Reported(calls, location) ==> location in queue || Settled(calls, location))
  }

  /** Every candidate is a seed or was reported, and nothing else is ever asked. */
  ghost predicate Founded(seeds: seq<string>, candidates: seq<string>, queue: seq<string>, calls: seq<Call>) {
    && seeds <= candidates
    && (forall location :: location in candidates ==> location in seeds || Reported(calls, location))
    && (forall location :: location in queue ==> location in candidates)
    && (forall i :: 0 <= i < |calls| ==> calls[i].location in candidates)
  }

  lemma LastAfter(calls: seq<Call>, call: Call)
    ensures forall location :: Last(calls + [call], location) ==
              if location == call.location then Some(call.outcome) else Last(calls, location)
    ensures forall location :: Reported(calls + [call], location) <==>
              Reported(calls, location) || (call.outcome.Answered? && location in call.outcome.discovered)
  {
    var more := calls + [call];
    assert more[..|more| - 1] == calls;
    forall location
      ensures Reported(more, location) <==>
        Reported(calls, location) || (call.outcome.Answered? && location in call.outcome.discovered)
    {
      if Reported(calls, location) {
        var i :| 0 <= i < |calls| && calls[i].outcome.Answered? && location in calls[i].outcome.discovered;
        assert more[i] == calls[i];
      }
      if call.outcome.Answered? && location in call.outcome.discovered {
        assert more[|calls|] == call;
      }
    }
  }

  ghost predicate Inv(seeds: seq<string>, probes: map<string, Outcome>, candidates: seq<string>, queue: seq<string>,
                      calls: seq<Call>) {
    Recorded(probes, calls) && Founded(seeds, candidates, queue, calls) && Covered(candidates, queue, calls)
  }

  /** How the queue and the candidates grow by what an answer reported. */
  ghost predicate Grown(queue0: seq<string>, candidates0: seq<string>, probes: map<string, Outcome>,
                        discovered: seq<string>,
                        queue: seq<string>, candidates: seq<string>) {
    && candidates0 <= candidates
    && (forall location :: location in queue <==> location in queue0 || (location in discovered && location !in probes))
    && (forall location :: location in candidates ==> location in candidates0 || location in discovered)
    && (forall location :: location in candidates ==> location in candidates0 || location in queue)
    && (forall location :: location in queue ==> location in queue0 || location in candidates)
  }

  lemma Popped(queue: seq<string>)
    requires queue != []
    ensures forall location :: location in queue <==> location == queue[0] || location in queue[1..]
  {
  }

  lemma SettledIsDone(seeds: seq<string>, probes: map<string, Outcome>, candidates: seq<string>, queue: seq<string>,
                      calls: seq<Call>)
    requires Inv(seeds, probes, candidates, queue, calls) && queue != [] && queue[0] in probes
    ensures Inv(seeds, probes, candidates, queue[1..], calls)
  {
    Popped(queue);
    assert Settled(calls, queue[0]);
  }

  lemma RaisedIsDone(seeds: seq<string>, probes: map<string, Outcome>, candidates: seq<string>, queue: seq<string>,
                     calls: seq<Call>)
    requires Inv(seeds, probes, candidates, queue, calls) && queue != [] && queue[0] !in probes
    ensures Inv(seeds, probes, candidates, queue[1..], calls + [Call(queue[0], Raised)])
  {
    Popped(queue);
    LastAfter(calls, Call(queue[0], Raised));
  }

  lemma AnswerIsRecorded(seeds: seq<string>, probes: map<string, Outcome>, candidates: seq<string>, queue: seq<string>,
                         calls: seq<Call>, outcome: Outcome)
    requires Recorded(probes, calls) && Founded(seeds, candidates, queue, calls) && queue != [] && outcome.Answered?
    ensures Recorded(probes[queue[0] := outcome], calls + [Call(queue[0], outcome)])
    ensures Founded(seeds, candidates, queue[1..], calls + [Call(queue[0], outcome)])
  {
    Popped(queue);
    LastAfter(calls, Call(queue[0], outcome));
  }

  lemma AnswerIsDone(seeds: seq<string>, probes: map<string, Outcome>, candidates0: seq<string>, queue0: seq<string>,
                     calls: seq<Call>, outcome: Outcome, queue: seq<string>, candidates: seq<string>)
    requires Inv(seeds, probes, candidates0, queue0, calls) && queue0 != [] && outcome.Answered?
    requires Grown(queue0[1..], candidates0, probes[queue0[0] := outcome], outcome.discovered, queue, candidates)
    ensures Inv(seeds, probes[queue0[0] := outcome], candidates, queue, calls + [Call(queue0[0], outcome)])
  {
    AnswerIsRecorded(seeds, probes, candidates0, queue0, calls, outcome);
    Popped(queue0);
    LastAfter(calls, Call(queue0[0], outcome));
    var now := calls + [Call(queue0[0], outcome)];
    forall location | Reported(now, location) || location in candidates
      ensures location in queue || Settled(now, location)
    {
      if location in outcome.discovered {
        assert location in queue || location in probes[queue0[0] := outcome];
      }
    }
  }

  /** `for extra in probe.discovered_locations`. */
  method Extend(queue0: seq<string>, candidates0: seq<string>, probes: map<string, Outcome>, discovered: seq<string>)
    returns (queue: seq<string>, candidates: seq<string>)
    ensures Grown(queue0, candidates0, probes, discovered, queue, candidates)
  {
    queue, candidates := queue0, candidates0;
    for i := 0 to |discovered|
      invariant Grown(queue0, candidates0, probes, discovered[..i], queue, candidates)
    {
      var extra := discovered[i];
      assert discovered[..i + 1] == discovered[..i] + [extra];
      if extra !in probes && extra !in queue {
        queue := queue + [extra];
        candidates := candidates + [extra];
      }
    }
    assert discovered[..|discovered|] == discovered;
  }

  ghost predicate Faithful(world: (nat, string) -> Outcome, calls: seq<Call>) {
    forall i :: 0 <= i < |calls| ==> calls[i].outcome == world(i, calls[i].location)
  }

  predicate AnyFatal(probes: map<string, Outcome>) {
    exists location :: location in probes && probes[location].Answered? &&
      probes[location].eligibility == FatalAuthentication
  }

  lemma LessToProbe(universe: set<string>, probed: set<string>, location: string)
    requires location in universe && location !in probed
    ensures |universe - (probed + {location})| < |universe - probed|
  {
    assert universe - probed == (universe - (probed + {location})) + {location};
  }

  ghost predicate AllIn(locations: seq<string>, universe: set<string>) {
    forall location :: location in locations ==> location in universe
  }

  lemma AnswerStaysWithin(world: (nat, string) -> Outcome, universe: set<string>, n: nat, location: string)
    requires Within(world, universe) && world(n, location).Answered?
    ensures AllIn(world(n, location).discovered, universe)
  {
  }

  lemma StillFaithful(world: (nat, string) -> Outcome, calls: seq<Call>, location: string)
    requires Faithful(world, calls)
    ensures Faithful(world, calls + [Call(location, world(|calls|, location))])
  {
  }

  lemma StillIn(queue0: seq<string>, candidates0: seq<string>, probes: map<string, Outcome>, discovered: seq<string>,
                queue: seq<string>, candidates: seq<string>, universe: set<string>)
    requires Grown(queue0, candidates0, probes, discovered, queue, candidates)
    requires AllIn(candidates0, universe) && AllIn(discovered, universe)
    ensures AllIn(candidates, universe)
  {
  }

  lemma StillNotFatal(probes: map<string, Outcome>, location: string, outcome: Outcome)
    requires outcome.Answered?
    ensures outcome.eligibility == FatalAuthentication ==> AnyFatal(probes[location := outcome])
    ensures outcome.eligibility != FatalAuthentication && !AnyFatal(probes) ==> !AnyFatal(probes[location := outcome])
  {
    var more := probes[location := outcome];
    if outcome.eligibility == FatalAuthentication {
      assert location in more && more[location] == outcome;
    }
  }

  lemma FoundedWithout(seeds: seq<string>, candidates: seq<string>, queue: seq<string>, calls: seq<Call>)
    requires Founded(seeds, candidates, queue, calls)
    ensures Founded(seeds, candidates, [], calls)
  {
  }

  /** The worklist. It ends whatever the provider answers within the universe; and unless an
      authentication was rejected, every candidate, and every location any answer reported, was
      itself probed or had its last attempt raise. */
  method Discover(seeds: seq<string>, world: (nat, string) -> Outcome, ghost universe: set<string>)
    returns (probes: map<string, Outcome>, candidates: seq<string>, calls: seq<Call>)
    requires Within(world, universe) && AllIn(seeds, universe)
    ensures Faithful(world, calls)
    ensures Recorded(probes, calls)
    ensures Founded(seeds, candidates, [], calls)
    ensures !AnyFatal(probes) ==> Covered(candidates, [], calls)
  {
    probes, candidates, calls := map[], seeds, [];
    var queue := seeds;
    while queue != []
      invariant Faithful(world, calls)
      invariant Inv(seeds, probes, candidates, queue, calls)
      invariant AllIn(candidates, universe)
      invariant !AnyFatal(probes)
      decreases |universe - probes.Keys|, |queue|
    {
      var location := queue[0];
      assert location in queue && location in universe;
      if location in probes {
        SettledIsDone(seeds, probes, candidates, queue, calls);
        queue := queue[1..];
        continue;
      }
      var outcome := world(|calls|, location);
      StillFaithful(world, calls, location);
      if outcome.Raised? {
        RaisedIsDone(seeds, probes, candidates, queue, calls);
        calls := calls + [Call(location, outcome)];
        queue := queue[1..];
        continue;
      }
      StillNotFatal(probes, location, outcome);
      AnswerIsRecorded(seeds, probes, candidates, queue, calls, outcome);
      if outcome.eligibility == FatalAuthentication {
        calls := calls + [Call(location, outcome)];
        probes := probes[location := outcome];
        FoundedWithout(seeds, candidates, queue[1..], calls);
        return;
      }
      LessToProbe(universe, probes.Keys, location);
      AnswerStaysWithin(world, universe, |calls|, location);
      var more, grown := Extend(queue[1..], candidates, probes[location := outcome], outcome.discovered);
      AnswerIsDone(seeds, probes, candidates, queue, calls, outcome, more, grown);
      StillIn(queue[1..], candidates, probes[location := outcome], outcome.discovered, more, grown, universe);
      assert probes[location := outcome].Keys == probes.Keys + {location};
      calls := calls + [Call(location, outcome)];
      probes := probes[location := outcome];
      queue, candidates := more, grown;
    }
    FoundedWithout(seeds, candidates, queue, calls);
  }
}
