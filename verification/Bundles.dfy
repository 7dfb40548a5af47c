/**
 Every caller's own bundle beside the shared flights: what a returned resolution
 leaves there, and what a returned error does. A bundle belongs to one request.
 */
module Bundles {
  import opened Wrappers
  import opened Releases
  import opened GcRoots
  import opened GcRootProofs
  import opened Materialization
  import opened Flights
  import opened FlightProofs
  import opened Coalescing

  datatype World = World(flights: State, bundles: map<Caller, Files>)

  /** A flight step, with what Nix did for its caller and, on arrival, the bundle it brings. */
  datatype Move = Move(e: Event, nix: NixWork, brought: Files)

  /** `if result.is_err() { remove_bundle_gc_roots }`. */
  function Settled(outcome: Outcome, f: Files): Files { if outcome.Ok? then f else Removed(f) }

  /** What the step does to the caller's own bundle. */
  ghost predicate Touches(w: World, m: Move, bundles': map<Caller, Files>)
    requires m.e.Tick? || m.e.Arrive? || m.e.c in w.bundles
  {
    match m.e
    case Arrive(c, _) => bundles' == w.bundles[c := m.brought]
    case Publish(c, outcome) =>
      && c in w.flights.pcs && w.flights.pcs[c].Leading? && Supplies(w.flights.pcs[c].job, m.nix)
      && var (r, f) := Produce(w.flights.pcs[c].job, w.bundles[c], m.nix);
      && Reports(outcome, r)
      && bundles' == w.bundles[c := Settled(outcome, f)]
    case Registered(c, outcome) =>
      && c in w.flights.pcs && w.flights.pcs[c].Registering?
      && |m.nix.calls| == |StorePaths(w.flights.pcs[c].resolution)|
      && var (r, f) := RegisterAll(w.bundles[c], StorePaths(w.flights.pcs[c].resolution), m.nix.calls);
      && (outcome.Ok? <==> r.Ok?)
      && bundles' == w.bundles[c := Settled(outcome, f)]
    case Look(c) =>
      && c in w.flights.pcs && w.flights.pcs[c].Waiting? && !w.flights.pcs[c].wait.Asleep?
      && w.flights.pcs[c].flight < |w.flights.flights|
      && var pc := Looked(w.flights, w.flights.pcs[c]);
      && bundles' == w.bundles[c := if pc.Finished? then Settled(pc.outcome, w.bundles[c]) else w.bundles[c]]
    case _ => bundles' == w.bundles
  }

  ghost predicate WorldStep(node: Node, w: World, m: Move, w': World)
    requires WellLinked(SharedOf(w.flights)) && w.bundles.Keys == w.flights.pcs.Keys
  {
    && Step(w.flights, m.e, w'.flights)
    && (m.e.Arrive? ==> Allowed(node, w.flights, m.e))
    && (m.e.Tick? || m.e.Arrive? || m.e.c in w.bundles)
    && Touches(w, m, w'.bundles)
  }

  /** What a bundle must be by the time its caller is done. */
  predicate Honours(outcome: Outcome, f: Files) {
    if outcome.Ok? then Rooted(f, StorePaths(outcome.value)) else Removed(f) == f
  }

  ghost predicate BundleFits(pc: Pc, f: Files) {
    match pc
    case Finished(_, _, outcome) => Honours(outcome, f)
    case Removing(_, _, outcome) => Honours(outcome, f)
    case Returned(Some(_), outcome) => Honours(outcome, f)
    case _ => true
  }

  ghost predicate Settles(w: World) {
    && w.bundles.Keys == w.flights.pcs.Keys
    && forall c :: c in w.flights.pcs ==> BundleFits(w.flights.pcs[c], w.bundles[c])
  }

  lemma ErrorsSettle(outcome: Outcome, f: Files)
    requires outcome.Err?
    ensures Honours(outcome, Settled(outcome, f))
  {
    RemovalIsIdempotent(f);
  }

  lemma PublishSettles(job: Job, f: Files, nix: NixWork, outcome: Outcome)
    requires Supplies(job, nix) && Reports(outcome, Produce(job, f, nix).0)
    ensures Honours(outcome, Settled(outcome, Produce(job, f, nix).1)) && Materialized(job, outcome)
  {
    if outcome.Ok? {
      MaterializeRoots(job, f, nix);
    } else {
      ErrorsSettle(outcome, Produce(job, f, nix).1);
    }
  }

  lemma RegistrationSettles(r: ResolvedRelease, f: Files, calls: seq<NixCall>, outcome: Outcome)
    requires |calls| == |StorePaths(r)| && (outcome.Ok? <==> RegisterAll(f, StorePaths(r), calls).0.Ok?)
    requires outcome.Ok? ==> outcome.value == r
    ensures Honours(outcome, Settled(outcome, RegisterAll(f, StorePaths(r), calls).1))
  {
    if outcome.Ok? {
      RegisteredIsRooted(f, StorePaths(r), calls);
    } else {
      ErrorsSettle(outcome, RegisterAll(f, StorePaths(r), calls).1);
    }
  }

  lemma ArrivalSettles(node: Node, s: State, c: Caller, pc: Pc, f: Files)
    requires Allowed(node, s, Arrive(c, pc))
    ensures BundleFits(pc, f)
  {
    var request, fetched :| Served(node, fetched) && pc == Arrival(node, request, s.now, fetched);
  }

  lemma LookSettles(s: State, pc: Pc, f: Files)
    requires pc.Waiting? && !pc.wait.Asleep? && pc.flight < |s.flights|
    ensures var after := Looked(s, pc);
      BundleFits(after, if after.Finished? then Settled(after.outcome, f) else f)
  {
    var after := Looked(s, pc);
    if after.Finished? {
      ErrorsSettle(after.outcome, f);
    }
  }

  /** The caller's own bundle fits where the step takes it. */
  lemma ActorSettles(node: Node, w: World, m: Move, w': World)
    requires Inv(w.flights) && Settles(w) && WorldStep(node, w, m, w') && !m.e.Tick?
    ensures w'.bundles.Keys == w'.flights.pcs.Keys && m.e.c in w'.bundles
    ensures BundleFits(w'.flights.pcs[m.e.c], w'.bundles[m.e.c])
  {
    match m.e
    case Arrive(c, pc) => ArrivalSettles(node, w.flights, c, pc, m.brought);
    case Publish(c, outcome) => PublishSettles(w.flights.pcs[c].job, w.bundles[c], m.nix, outcome);
    case Registered(c, outcome) => RegistrationSettles(w.flights.pcs[c].resolution, w.bundles[c], m.nix.calls, outcome);
    case Look(c) => LookSettles(w.flights, w.flights.pcs[c], w.bundles[c]);
    case _ =>
  }

  /** And nobody else is taken anywhere, or has its bundle touched. */
  lemma OthersUntouched(node: Node, w: World, m: Move, w': World, c: Caller)
    requires Inv(w.flights) && w.bundles.Keys == w.flights.pcs.Keys && WorldStep(node, w, m, w')
    requires c in w.flights.pcs && (m.e.Tick? || m.e.c != c)
    ensures c in w'.bundles && w'.bundles[c] == w.bundles[c] && c in w'.flights.pcs
    ensures BundleFits(w'.flights.pcs[c], w.bundles[c]) <==> BundleFits(w.flights.pcs[c], w.bundles[c])
  {
  }

  lemma StepSettles(node: Node, w: World, m: Move, w': World)
    requires Inv(w.flights) && Settles(w) && WorldStep(node, w, m, w')
    ensures Settles(w')
  {
    if !m.e.Tick? {
      ActorSettles(node, w, m, w');
    }
    forall c | c in w'.flights.pcs
      ensures BundleFits(w'.flights.pcs[c], w'.bundles[c])
    {
      if c in w.flights.pcs && (m.e.Tick? || m.e.c != c) {
        OthersUntouched(node, w, m, w', c);
      }
    }
  }

  /** A leader's publication is what its own materialization returned. */
  lemma StepIsAllowed(node: Node, w: World, m: Move, w': World)
    requires WellLinked(SharedOf(w.flights)) && w.bundles.Keys == w.flights.pcs.Keys && WorldStep(node, w, m, w')
    ensures Allowed(node, w.flights, m.e)
  {
    if m.e.Publish? {
      PublishSettles(w.flights.pcs[m.e.c].job, w.bundles[m.e.c], m.nix, m.e.outcome);
    }
  }

  ghost predicate WorldRun(node: Node, worlds: seq<World>, moves: seq<Move>) {
    && |worlds| == |moves| + 1
    && Init(worlds[0].flights) && worlds[0].bundles == map[]
    && forall i :: 0 <= i < |moves| ==>
         && WellLinked(SharedOf(worlds[i].flights)) && worlds[i].bundles.Keys == worlds[i].flights.pcs.Keys
         && WorldStep(node, worlds[i], moves[i], worlds[i + 1])
  }

  lemma {:induction false} RunsSettle(node: Node, worlds: seq<World>, moves: seq<Move>, i: nat)
    requires WorldRun(node, worlds, moves) && i < |worlds|
    ensures Inv(worlds[i].flights) && Settles(worlds[i])
  {
    if i > 0 {
      RunsSettle(node, worlds, moves, i - 1);
      StepSettles(node, worlds[i - 1], moves[i - 1], worlds[i]);
      StepPreserves(worlds[i - 1].flights, moves[i - 1].e, worlds[i].flights);
    }
  }

  lemma StepYieldsOwn(node: Node, w: World, m: Move, w': World)
    requires NoCollisions(node) && Inv(w.flights) && w.bundles.Keys == w.flights.pcs.Keys && Faithful(node, w.flights)
    requires WorldStep(node, w, m, w')
    ensures Faithful(node, w'.flights)
  {
    StepIsAllowed(node, w, m, w');
    StepKeepsFaithful(node, w.flights, m.e, w'.flights);
  }

  lemma {:induction false} RunsYieldOwn(node: Node, worlds: seq<World>, moves: seq<Move>, i: nat)
    requires NoCollisions(node) && WorldRun(node, worlds, moves) && i < |worlds|
    ensures Faithful(node, worlds[i].flights)
  {
    if i > 0 {
      RunsSettle(node, worlds, moves, i - 1);
      RunsYieldOwn(node, worlds, moves, i - 1);
      StepYieldsOwn(node, worlds[i - 1], moves[i - 1], worlds[i]);
    }
  }

  /** An `Ok` returned to anybody, leader or follower, means that its own bundle holds
      a root for everything in the resolution it got: root 0 links to the root file
      system, and the roots after it link to the mounts' sources. An `Err` after the
      join means that nothing removable is left there. */
  lemma ReturnedMeansRooted(node: Node, worlds: seq<World>, moves: seq<Move>, i: nat, c: Caller)
    requires WorldRun(node, worlds, moves) && i < |worlds|
    requires c in worlds[i].flights.pcs && worlds[i].flights.pcs[c].Returned? && worlds[i].flights.pcs[c].own.Some?
    ensures c in worlds[i].bundles
    ensures var outcome := worlds[i].flights.pcs[c].outcome;
      if outcome.Ok? then KeepsAlive(worlds[i].bundles[c], outcome.value)
      else forall p :: !Removes(worlds[i].bundles[c], p)
  {
    RunsSettle(node, worlds, moves, i);
    var f := worlds[i].bundles[c];
    assert BundleFits(worlds[i].flights.pcs[c], f);
    if worlds[i].flights.pcs[c].outcome.Err? {
      NothingRemovable(f);
    } else {
      RootedKeepsAlive(f, worlds[i].flights.pcs[c].outcome.value);
    }
  }

  lemma NothingRemovable(f: Files)
    requires Removed(f) == f
    ensures forall p :: !Removes(f, p)
  {
    forall p
      ensures !Removes(f, p)
    {
      GcRootProofs.RemovalIsExact(f, p);
    }
  }

  /** Together with coalescing: the resolution is the caller's own, and it is rooted. */
  lemma ReturnedIsOwnAndRooted(node: Node, worlds: seq<World>, moves: seq<Move>, i: nat, c: Caller)
    requires NoCollisions(node) && WorldRun(node, worlds, moves) && i < |worlds|
    requires c in worlds[i].flights.pcs && worlds[i].flights.pcs[c].Returned? && worlds[i].flights.pcs[c].outcome.Ok?
    ensures var pc := worlds[i].flights.pcs[c];
      && pc.own.Some? && Yields(pc.own.value, pc.outcome.value) && Granted(node, pc.own.value, pc.outcome.value)
      && c in worlds[i].bundles && KeepsAlive(worlds[i].bundles[c], pc.outcome.value)
  {
    RunsYieldOwn(node, worlds, moves, i);
    RunsSettle(node, worlds, moves, i);
    assert PcFits(worlds[i].flights.pcs[c], Fits);
    YieldedIsGranted(node, worlds[i].flights.pcs[c].own.value, worlds[i].flights.pcs[c].outcome.value);
    ReturnedMeansRooted(node, worlds, moves, i, c);
  }
}
