/**
 What callers get out of a shared flight. The single-flight steps are guarded by
 the content they carry: a caller arrives with its own selection, and a leader
 publishes what its own materialization returned, whatever Nix did. Every `Ok` a
 caller then receives is one it would have got alone.
 */
module Coalescing {
  import opened Wrappers
  import opened Releases
  import opened GcRoots
  import opened GcRootProofs
  import opened Materialization
  import opened Flights
  import opened FlightProofs

  predicate Fits(job: Job, outcome: Outcome) {
    outcome.Ok? ==> Yields(job, outcome.value)
  }

  /** Validation and selection, before any shared state is touched. */
  function Arrival(node: Node, request: Request, now: nat, fetched: Result<Bytes, ResolutionError>): Pc {
    match Begin(node, request, now, fetched)
    case Ok(job) => Pc.Selected(job)
    case Err(error) => Returned(None, Err(error))
  }

  /** The error is reported as what it is; a success is passed on unchanged. */
  predicate Reports(outcome: Outcome, r: Result<ResolvedRelease, RootError>) {
    (outcome.Ok? <==> r.Ok?) && (r.Ok? ==> outcome.value == r.value)
  }

  /** The outcome is what `materialize` returned for this job, from some bundle and
      some behaviour of Nix. */
  ghost predicate Materialized(job: Job, outcome: Outcome) {
    exists files, nix :: Supplies(job, nix) && Reports(outcome, Produce(job, files, nix).0)
  }

  /** The content of a step: arrivals come out of `Begin`, and a leader publishes
      what materializing its own job returned. */
  ghost predicate Allowed(node: Node, s: State, e: Event) {
    match e
    case Arrive(c, pc) =>
      exists request, fetched :: Served(node, fetched) && pc == Arrival(node, request, s.now, fetched)
    case Publish(c, outcome) => c in s.pcs && s.pcs[c].Leading? && Materialized(s.pcs[c].job, outcome)
    case _ => true
  }

  /** Materializing fits the job it was done for. */
  lemma MaterializedFits(job: Job, outcome: Outcome)
    requires Materialized(job, outcome)
    ensures Fits(job, outcome)
  {
    var files, nix :| Supplies(job, nix) && Reports(outcome, Produce(job, files, nix).0);
    if outcome.Ok? {
      MaterializeYields(job, files, nix);
    }
  }

  /** Every job in sight was admitted. This needs no assumption about digests. */
  ghost predicate JobsAdmitted(node: Node, s: State) { AllJobs(s, job => Admitted(node, job)) }

  ghost predicate Faithful(node: Node, s: State) {
    JobsAdmitted(node, s) && AllOutcomes(s, Fits)
  }

  /** Equal keys make the leader's result the follower's own. */
  lemma SharedResultFits(node: Node, leader: Job, follower: Job, outcome: Outcome)
    requires NoCollisions(node) && Admitted(node, leader) && Admitted(node, follower)
    requires leader.key == follower.key && Fits(leader, outcome)
    ensures Fits(follower, outcome)
  {
    JobsAgree(node, leader, follower);
  }

  lemma StepKeepsAdmitted(node: Node, s: State, e: Event, s': State)
    requires Linked(s) && JobsAdmitted(node, s) && Allowed(node, s, e) && Step(s, e, s')
    ensures JobsAdmitted(node, s')
  {
    if e.Arrive? {
      var request, fetched :| Served(node, fetched) && e.pc == Arrival(node, request, s.now, fetched);
      if e.pc.Selected? {
        assert Begin(node, e.pc.job.request, s.now, fetched) == Ok(e.pc.job);
        assert Admitted(node, e.pc.job);
      }
    }
    StepKeepsJobs(s, e, s', job => Admitted(node, job));
  }

  lemma StepKeepsFaithful(node: Node, s: State, e: Event, s': State)
    requires NoCollisions(node) && Inv(s) && Faithful(node, s) && Allowed(node, s, e) && Step(s, e, s')
    ensures Faithful(node, s')
  {
    StepKeepsAdmitted(node, s, e, s');
    if e.Look? && s.flights[s.pcs[e.c].flight].result.Some? {
      var f := s.flights[s.pcs[e.c].flight];
      SharedResultFits(node, f.job, s.pcs[e.c].job, f.result.value);
    }
    if e.Publish? {
      MaterializedFits(s.pcs[e.c].job, e.outcome);
      SharedResultFits(node, s.pcs[e.c].job, s.flights[s.pcs[e.c].flight].job, e.outcome);
    }
    StepKeepsOutcomes(s, e, s', Fits);
  }

  ghost predicate ContentRun(node: Node, states: seq<State>, events: seq<Event>) {
    && Run(states, events)
    && forall i :: 0 <= i < |events| ==> Allowed(node, states[i], events[i])
  }

  lemma {:induction false} RunsStayFaithful(node: Node, states: seq<State>, events: seq<Event>, i: nat)
    requires NoCollisions(node) && ContentRun(node, states, events) && i < |states|
    ensures Inv(states[i]) && Faithful(node, states[i])
  {
    RunsKeepInv(states, events, i);
    if i > 0 {
      RunsStayFaithful(node, states, events, i - 1);
      StepKeepsFaithful(node, states[i - 1], events[i - 1], states[i]);
    }
  }

  lemma YieldedIsGranted(node: Node, job: Job, r: ResolvedRelease)
    requires Admitted(node, job) && Yields(job, r)
    ensures Granted(node, job, r)
  {
    if job.request.materialize.Release? {
      AdmittedIsGranted(node, job);
    }
  }

  /** Coalescing refines running alone. Whatever the interleaving, a resolution
      returned to a caller is what that caller's own selection yields; and for a
      release it is word for word what the manifest of the caller's own reference
      states for this node, a manifest open to the caller's own container. */
  lemma CoalescingRefinesAlone(node: Node, states: seq<State>, events: seq<Event>, i: nat, c: Caller)
    requires NoCollisions(node) && ContentRun(node, states, events) && i < |states|
    requires c in states[i].pcs && states[i].pcs[c].Returned? && states[i].pcs[c].outcome.Ok?
    ensures var own := states[i].pcs[c].own;
            && own.Some?
            && Admitted(node, own.value)
            && Yields(own.value, states[i].pcs[c].outcome.value)
            && Granted(node, own.value, states[i].pcs[c].outcome.value)
  {
    RunsStayFaithful(node, states, events, i);
    assert PcFits(states[i].pcs[c], Fits);
    YieldedIsGranted(node, states[i].pcs[c].own.value, states[i].pcs[c].outcome.value);
  }

  /** For a release or a closure there is only one such resolution: whatever the
      caller's own selection had fetched, running alone gives the same answer. */
  lemma AloneIsUnique(node: Node, a: Job, b: Job, x: ResolvedRelease, y: ResolvedRelease)
    requires NoCollisions(node) && Admitted(node, a) && Admitted(node, b)
    requires a.request == b.request && !a.request.materialize.Flake?
    requires Yields(a, x) && Yields(b, y)
    ensures x == y
  {
    JobsAgree(node, a, b);
  }
}
