/** The single-flight invariant is inductive, and what follows from it over every run. */
module FlightProofs {
  import opened Wrappers
  import opened Releases
  import opened Flights

  /** Steps of one caller that keep its flight and its standing keep every count. */
  lemma SameAttachments(s: State, s': State)
    requires Counted(s) && |s'.flights| == |s.flights|
    requires forall f :: 0 <= f < |s.flights| ==> s'.flights[f].callers == s.flights[f].callers
    requires forall c, f :: (c in s'.pcs && IsAttached(s'.pcs[c], f)) <==> (c in s.pcs && IsAttached(s.pcs[c], f))
    ensures Counted(s')
  {
    forall f | 0 <= f < |s'.flights|
      ensures s'.flights[f].callers == |Attached(s', f)|
    {
      assert Attached(s', f) == Attached(s, f);
    }
  }

  lemma ArriveKeepsStanding(s: State, c: Caller, pc: Pc, s': State)
    requires Standing(s) && Step(s, Arrive(c, pc), s')
    ensures Standing(s')
  {
  }

  lemma ArrivePreserves(s: State, c: Caller, pc: Pc, s': State)
    requires Inv(s) && Step(s, Arrive(c, pc), s')
    ensures Inv(s')
  {
    ArriveKeepsStanding(s, c, pc, s');
    SameAttachments(s, s');
    assert forall f, d :: IsRemover(s, d, f) ==> IsRemover(s', d, f);
  }

  /** Moving one caller moves only that caller between flights. */
  lemma AttachedAfterMove(s: State, s': State, c: Caller, f: nat)
    requires c in s.pcs && c in s'.pcs && s'.pcs == s.pcs[c := s'.pcs[c]]
    ensures Attached(s', f) == (Attached(s, f) - {c}) + if IsAttached(s'.pcs[c], f) then {c} else {}
  {
  }

  lemma JoinKeepsCounts(s: State, c: Caller, s': State)
    requires Linked(s) && Counted(s) && Step(s, Join(c), s')
    ensures Counted(s')
  {
    assert Attached(s, |s.flights|) == {};
    forall f | 0 <= f < |s'.flights|
      ensures s'.flights[f].callers == |Attached(s', f)|
    {
      AttachedAfterMove(s, s', c, f);
      assert c !in Attached(s, f);
    }
  }

  lemma FollowingJoinKeepsStanding(s: State, c: Caller, s': State)
    requires Standing(s) && Step(s, Join(c), s') && s.pcs[c].job.key in s.table
    ensures Standing(s')
  {
  }

  lemma LeadingJoinKeepsStanding(s: State, c: Caller, s': State)
    requires Standing(s) && Step(s, Join(c), s') && s.pcs[c].job.key !in s.table
    ensures Standing(s')
  {
  }

  lemma JoinKeepsStanding(s: State, c: Caller, s': State)
    requires Standing(s) && Step(s, Join(c), s')
    ensures Standing(s')
  {
    if s.pcs[c].job.key in s.table {
      FollowingJoinKeepsStanding(s, c, s');
    } else {
      LeadingJoinKeepsStanding(s, c, s');
    }
  }

  lemma JoinKeepsRemovers(s: State, c: Caller, s': State)
    requires Linked(s) && Counted(s) && ZeroIsBeingRemoved(s) && Step(s, Join(c), s')
    ensures ZeroIsBeingRemoved(s')
  {
    assert forall f, d :: IsRemover(s, d, f) ==> IsRemover(s', d, f);
  }

  lemma PublishKeepsLeaders(s: State, c: Caller, outcome: Outcome, s': State)
    requires Standing(s) && Step(s, Publish(c, outcome), s')
    ensures Linked(s') && UnfinishedIsLed(s') && LeadersLead(s')
  {
  }

  lemma PublishKeepsWaiters(s: State, c: Caller, outcome: Outcome, s': State)
    requires Standing(s) && Step(s, Publish(c, outcome), s')
    ensures RemoversFollowResults(s') && SleepersAwaitResult(s')
  {
  }

  lemma PublishKeepsStanding(s: State, c: Caller, outcome: Outcome, s': State)
    requires Standing(s) && Step(s, Publish(c, outcome), s')
    ensures Standing(s')
  {
    PublishKeepsLeaders(s, c, outcome, s');
    PublishKeepsWaiters(s, c, outcome, s');
  }

  lemma PublishKeepsCounts(s: State, c: Caller, outcome: Outcome, s': State)
    requires Linked(s) && Counted(s) && Step(s, Publish(c, outcome), s')
    ensures Counted(s')
  {
    SameAttachments(s, s');
  }

  lemma PublishKeepsRemovers(s: State, c: Caller, outcome: Outcome, s': State)
    requires Linked(s) && ZeroIsBeingRemoved(s) && Step(s, Publish(c, outcome), s')
    ensures ZeroIsBeingRemoved(s')
  {
    assert forall f, d :: IsRemover(s, d, f) ==> IsRemover(s', d, f);
  }

  /** A follower moving on within its flight. */
  predicate FollowsOn(s: State, c: Caller, pc: Pc) {
    && c in s.pcs && (s.pcs[c].Waiting? || s.pcs[c].Registering?) && s.pcs[c].flight < |s.flights|
    && (pc.Waiting? || pc.Registering? || pc.Finished?)
    && pc.flight == s.pcs[c].flight && pc.job == s.pcs[c].job
    && (pc.Waiting? && pc.wait.Asleep? ==> s.flights[pc.flight].result.None?)
  }

  lemma FollowingKeepsStanding(s: State, c: Caller, pc: Pc)
    requires Standing(s) && FollowsOn(s, c, pc)
    ensures Standing(s.(pcs := s.pcs[c := pc]))
  {
  }

  lemma FollowingPreserves(s: State, c: Caller, pc: Pc)
    requires Inv(s) && FollowsOn(s, c, pc)
    ensures Inv(s.(pcs := s.pcs[c := pc]))
  {
    FollowingKeepsStanding(s, c, pc);
    SameAttachments(s, s.(pcs := s.pcs[c := pc]));
    FollowingKeepsRemovers(s, c, pc);
  }

  lemma FollowingKeepsRemovers(s: State, c: Caller, pc: Pc)
    requires ZeroIsBeingRemoved(s) && FollowsOn(s, c, pc)
    ensures ZeroIsBeingRemoved(s.(pcs := s.pcs[c := pc]))
  {
    assert forall f, d :: IsRemover(s, d, f) ==> IsRemover(s.(pcs := s.pcs[c := pc]), d, f);
  }

  lemma FollowerSteps(s: State, e: Event, s': State)
    requires Inv(s) && Step(s, e, s') && (e.Look? || e.Rouse? || e.Registered?)
    ensures e.c in s'.pcs && s' == s.(pcs := s.pcs[e.c := s'.pcs[e.c]]) && FollowsOn(s, e.c, s'.pcs[e.c])
  {
  }

  lemma LeaveKeepsCounts(s: State, c: Caller, s': State)
    requires Linked(s) && Counted(s) && Step(s, Leave(c), s')
    ensures Counted(s')
  {
    forall f | 0 <= f < |s'.flights|
      ensures s'.flights[f].callers == |Attached(s', f)|
    {
      AttachedAfterMove(s, s', c, f);
      assert c in Attached(s, f) <==> f == s.pcs[c].flight;
    }
  }

  lemma TwoMembers<T>(r: set<T>, a: T, b: T)
    requires a in r && b in r && a != b
    ensures |r| >= 2
  {
    assert r == {a, b} + (r - {a, b});
  }

  /** Nobody but the leader can be the last caller of an unfinished flight. */
  lemma LeaderIsCounted(s: State, c: Caller, f: nat)
    requires UnfinishedIsLed(s) && Counted(s)
    requires f < |s.flights| && c in Attached(s, f) && !s.pcs[c].Leading? && s.flights[f].result.None?
    ensures s.flights[f].callers >= 2
  {
    TwoMembers(Attached(s, f), c, s.flights[f].leader);
  }

  lemma LeaveKeepsStanding(s: State, c: Caller, s': State)
    requires Standing(s) && Step(s, Leave(c), s')
    requires s.flights[s.pcs[c].flight].result.None? ==> s.flights[s.pcs[c].flight].callers >= 2
    ensures Standing(s')
  {
  }

  lemma LeaveKeepsRemovers(s: State, c: Caller, s': State)
    requires Linked(s) && ZeroIsBeingRemoved(s) && Step(s, Leave(c), s')
    ensures ZeroIsBeingRemoved(s')
  {
    assert forall f, d :: IsRemover(s, d, f) ==> IsRemover(s', d, f);
    var f := s.pcs[c].flight;
    assert s'.flights[f].callers == 0 ==> IsRemover(s', c, f);
  }

  lemma RemoveKeepsStanding(s: State, c: Caller, s': State)
    requires Standing(s) && Step(s, Remove(c), s')
    ensures Standing(s')
  {
  }

  lemma RemovePreserves(s: State, c: Caller, s': State)
    requires Inv(s) && Step(s, Remove(c), s')
    ensures Inv(s')
  {
    RemoveKeepsStanding(s, c, s');
    SameAttachments(s, s');
    RemoveKeepsRemovers(s, c, s');
  }

  lemma RemoveKeepsRemovers(s: State, c: Caller, s': State)
    requires Linked(s) && ZeroIsBeingRemoved(s) && Step(s, Remove(c), s')
    ensures ZeroIsBeingRemoved(s')
  {
    var f := s.pcs[c].flight;
    assert forall g, d :: g != f && IsRemover(s, d, g) ==> IsRemover(s', d, g);
    assert forall k :: k in s'.table ==> s'.table[k] != f;
  }

  lemma StepPreserves(s: State, e: Event, s': State)
    requires Inv(s) && Step(s, e, s')
    ensures Inv(s')
  {
    match e
    case Arrive(c, pc) => ArrivePreserves(s, c, pc, s');
    case Join(c) =>
      JoinKeepsCounts(s, c, s');
      JoinKeepsStanding(s, c, s');
      JoinKeepsRemovers(s, c, s');
    case Publish(c, outcome) =>
      PublishKeepsCounts(s, c, outcome, s');
      PublishKeepsStanding(s, c, outcome, s');
      PublishKeepsRemovers(s, c, outcome, s');
    case Look(c) => FollowerSteps(s, e, s'); FollowingPreserves(s, c, s'.pcs[c]);
    case Rouse(c, _) => FollowerSteps(s, e, s'); FollowingPreserves(s, c, s'.pcs[c]);
    case Registered(c, _) => FollowerSteps(s, e, s'); FollowingPreserves(s, c, s'.pcs[c]);
    case Leave(c) =>
      if s.flights[s.pcs[c].flight].result.None? {
        LeaderIsCounted(s, c, s.pcs[c].flight);
      }
      LeaveKeepsCounts(s, c, s');
      LeaveKeepsStanding(s, c, s');
      LeaveKeepsRemovers(s, c, s');
    case Remove(c) => RemovePreserves(s, c, s');
    case Tick =>
      SameAttachments(s, s');
      assert forall f, d :: IsRemover(s, d, f) ==> IsRemover(s', d, f);
  }

  // ----- what the invariant says

  /** At most one caller per key materializes. */
  lemma AtMostOneLeader(s: State, c1: Caller, c2: Caller)
    requires Inv(s) && c1 in s.pcs && c2 in s.pcs && s.pcs[c1].Leading? && s.pcs[c2].Leading?
    requires s.pcs[c1].job.key == s.pcs[c2].job.key
    ensures c1 == c2
  {
    assert s.table[s.pcs[c1].job.key] == s.pcs[c1].flight;
    assert s.table[s.pcs[c2].job.key] == s.pcs[c2].flight;
  }

  /** Callers that hold or are about to drop a flight with this key. */
  ghost predicate Busy(s: State, key: string) {
    exists c :: c in s.pcs && OnFlight(s.pcs[c]) && s.pcs[c].job.key == key
  }

  /** Nothing leaks: a key is mapped only while some caller is on a flight with it. */
  lemma MappedMeansBusy(s: State, key: string)
    requires Inv(s) && key in s.table
    ensures Busy(s, key)
  {
    var f := s.table[key];
    if s.flights[f].callers == 0 {
      var c :| IsRemover(s, c, f);
      assert s.pcs[c].job.key == key;
    } else {
      var c :| c in Attached(s, f);
      assert s.pcs[c].job.key == key;
    }
  }

  /** Counts never underflow: whoever is about to leave is counted. */
  lemma LeaverIsCounted(s: State, c: Caller)
    requires Inv(s) && c in s.pcs && s.pcs[c].Finished?
    ensures s.flights[s.pcs[c].flight].callers >= 1
  {
    assert c in Attached(s, s.pcs[c].flight);
  }

  /** A request that joins after all earlier requests with its key have returned
      leads a fresh flight, so it never sees an earlier failure. */
  lemma QuietKeyLeadsFresh(s: State, c: Caller, s': State)
    requires Inv(s) && Step(s, Join(c), s') && !Busy(s, s.pcs[c].job.key)
    ensures s'.pcs[c] == Leading(s.pcs[c].job, |s.flights|)
    ensures s'.flights == s.flights + [Flight(c, s.pcs[c].job, 1, None)]
  {
    if s.pcs[c].job.key in s.table {
      MappedMeansBusy(s, s.pcs[c].job.key);
    }
  }

  /** A removal drops at most the remover's own flight, which is finished; a newer
      flight that took over the key stays. */
  lemma RemovalIsExact(s: State, c: Caller, s': State)
    requires Inv(s) && Step(s, Remove(c), s')
    ensures var f := s.pcs[c].flight;
      && s.flights[f].result.Some?
      && (forall k :: k in s'.table <==> k in s.table && s.table[k] != f)
      && (forall k :: k in s'.table ==> s'.table[k] == s.table[k])
  {
  }

  /** A published result is never overwritten. */
  lemma ResultsAreFinal(s: State, e: Event, s': State, f: nat)
    requires Inv(s) && Step(s, e, s') && f < |s.flights| && s.flights[f].result.Some?
    ensures f < |s'.flights| && s'.flights[f].result == s.flights[f].result
  {
  }

  /** A timer goes off only when its deadline has passed. */
  ghost predicate TimersHonest(s: State) {
    forall c :: c in s.pcs && s.pcs[c].Waiting? && s.pcs[c].wait == Awake(true) ==> s.now >= s.pcs[c].job.deadline
  }

  lemma StepKeepsTimersHonest(s: State, e: Event, s': State)
    requires Linked(s) && TimersHonest(s) && Step(s, e, s')
    ensures TimersHonest(s')
  {
  }

  /** What a follower that looks at its flight does next: it takes the published result,
      to register it or to report it; with no result it gives up exactly when its own
      deadline has passed, and only otherwise waits on. */
  lemma LookIsExact(s: State, c: Caller, s': State)
    requires Inv(s) && TimersHonest(s) && Step(s, Look(c), s')
    ensures var (job, f) := (s.pcs[c].job, s.pcs[c].flight); var result := s.flights[f].result;
      s'.pcs[c] ==
        if result.Some? then
          if result.value.Ok? then Registering(job, f, result.value.value) else Finished(job, f, result.value)
        else if s.now >= job.deadline then Finished(job, f, Err(ResolutionError(Timeout, true)))
        else Waiting(job, f, Asleep)
  {
  }

  /** Whose error a follower returns. It is the follower's own exactly when its flight
      had no result yet: then it is a timeout, and its own deadline has passed.
      Otherwise it is what the leader published, whatever the follower's deadline. */
  lemma WhoseError(s: State, c: Caller, s': State)
    requires Inv(s) && TimersHonest(s) && Step(s, Look(c), s') && s'.pcs[c].Finished?
    ensures s'.pcs[c].outcome.Err?
    ensures var result := s.flights[s.pcs[c].flight].result;
      && (result.None? ==> s'.pcs[c].outcome == Err(TIMEOUT) && s.now >= s.pcs[c].job.deadline)
      && (result.Some? ==> s'.pcs[c].outcome == result.value)
  {
    LookIsExact(s, c, s');
  }

  /** So the leader's timeout becomes the timeout of a follower with time to spare. */
  lemma BorrowedTimeout(job: Job, later: Job) returns (s: State, c: Caller, s': State)
    requires later.key == job.key && later.deadline > job.deadline + 1
    ensures Inv(s) && TimersHonest(s) && Step(s, Look(c), s') && s.now < later.deadline
    ensures s.pcs[c].job == later && s'.pcs[c] == Finished(later, s.pcs[c].flight, Err(TIMEOUT))
  {
    c := 1;
    s := State(job.deadline + 1, map[job.key := 0], [Flight(0, job, 2, Some(Err(TIMEOUT)))],
               map[0 := Finished(job, 0, Err(TIMEOUT)), 1 := Waiting(later, 0, Checking)]);
    assert Attached(s, 0) == {0, 1};
    s' := s.(pcs := s.pcs[c := Looked(s, s.pcs[c])]);
  }

  ghost predicate Run(states: seq<State>, events: seq<Event>) {
    && |states| == |events| + 1
    && Init(states[0])
    && forall i :: 0 <= i < |events| ==> WellLinked(SharedOf(states[i])) && Step(states[i], events[i], states[i + 1])
  }

  /** Every state of every run satisfies the invariant, so the step relation is
      always defined and all of the above holds throughout. */
  lemma {:induction false} RunsKeepInv(states: seq<State>, events: seq<Event>, i: nat)
    requires Run(states, events) && i < |states|
    ensures Inv(states[i])
  {
    if i > 0 {
      RunsKeepInv(states, events, i - 1);
      StepPreserves(states[i - 1], events[i - 1], states[i]);
    }
  }

  lemma {:induction false} RunsKeepTimersHonest(states: seq<State>, events: seq<Event>, i: nat)
    requires Run(states, events) && i < |states|
    ensures TimersHonest(states[i])
  {
    if i > 0 {
      RunsKeepInv(states, events, i - 1);
      RunsKeepTimersHonest(states, events, i - 1);
      StepKeepsTimersHonest(states[i - 1], events[i - 1], states[i]);
    }
  }

  /** In every run: a follower that stops waiting with an error gave up on its own,
      after its deadline and with no result there, or was handed the leader's error. */
  lemma FollowerErrors(states: seq<State>, events: seq<Event>, i: nat, c: Caller)
    requires Run(states, events) && i < |events| && events[i] == Look(c) && states[i + 1].pcs[c].Finished?
    ensures var s := states[i]; var pc := s.pcs[c]; var result := s.flights[pc.flight].result;
      if result.None? then states[i + 1].pcs[c].outcome == Err(TIMEOUT) && s.now >= pc.job.deadline
      else result.value.Err? && states[i + 1].pcs[c].outcome == result.value
  {
    RunsKeepInv(states, events, i);
    RunsKeepTimersHonest(states, events, i);
    WhoseError(states[i], c, states[i + 1]);
  }

  /** In every run a follower keeps its deadline: a look at or after it ends the wait,
      one way or the other, and a look before it gives up only with the leader. */
  lemma FollowersKeepDeadlines(states: seq<State>, events: seq<Event>, i: nat, c: Caller)
    requires Run(states, events) && i < |events| && events[i] == Look(c)
    ensures c in states[i].pcs && states[i].pcs[c].Waiting? && states[i].pcs[c].flight < |states[i].flights|
    ensures var s := states[i]; var result := s.flights[s.pcs[c].flight].result;
      states[i + 1].pcs[c].Waiting? <==> result.None? && s.now < s.pcs[c].job.deadline
  {
    RunsKeepInv(states, events, i);
    RunsKeepTimersHonest(states, events, i);
    LookIsExact(states[i], c, states[i + 1]);
  }

  // ----- what becomes of an outcome

  /** The outcome a caller is going to return, once it has one. */
  function Decided(pc: Pc): Option<Outcome> {
    match pc
    case Finished(_, _, outcome) => Some(outcome)
    case Removing(_, _, outcome) => Some(outcome)
    case Returned(_, outcome) => Some(outcome)
    case _ => None
  }

  lemma StepKeepsDecided(s: State, e: Event, s': State, c: Caller)
    requires Inv(s) && Step(s, e, s') && c in s.pcs && Decided(s.pcs[c]).Some?
    ensures c in s'.pcs && Decided(s'.pcs[c]) == Decided(s.pcs[c])
    ensures s.pcs[c].Returned? ==> s'.pcs[c] == s.pcs[c]
  {
  }

  predicate HasDecided(s: State, c: Caller, outcome: Outcome) {
    c in s.pcs && Decided(s.pcs[c]) == Some(outcome)
  }

  lemma NextKeepsDecided(states: seq<State>, events: seq<Event>, i: nat, c: Caller, outcome: Outcome)
    requires Run(states, events) && i < |events| && HasDecided(states[i], c, outcome)
    ensures HasDecided(states[i + 1], c, outcome)
  {
    RunsKeepInv(states, events, i);
    StepKeepsDecided(states[i], events[i], states[i + 1], c);
  }

  /** Leaving a flight changes nothing about what is returned. */
  lemma {:induction false} OutcomesAreFinal(states: seq<State>, events: seq<Event>, i: nat, j: nat,
                                            c: Caller, outcome: Outcome)
    requires Run(states, events) && i <= j < |states| && HasDecided(states[i], c, outcome)
    ensures HasDecided(states[j], c, outcome)
    decreases j
  {
    if i < j {
      OutcomesAreFinal(states, events, i, j - 1, c, outcome);
      NextKeepsDecided(states, events, j - 1, c, outcome);
    }
  }

  predicate HasResult(s: State, f: nat, outcome: Outcome) {
    f < |s.flights| && s.flights[f].result == Some(outcome)
  }

  lemma NextKeepsResult(states: seq<State>, events: seq<Event>, i: nat, f: nat, outcome: Outcome)
    requires Run(states, events) && i < |events| && HasResult(states[i], f, outcome)
    ensures HasResult(states[i + 1], f, outcome)
  {
    RunsKeepInv(states, events, i);
    ResultsAreFinal(states[i], events[i], states[i + 1], f);
  }

  lemma {:induction false} ResultsStay(states: seq<State>, events: seq<Event>, i: nat, j: nat, f: nat, outcome: Outcome)
    requires Run(states, events) && i <= j < |states| && HasResult(states[i], f, outcome)
    ensures HasResult(states[j], f, outcome)
    decreases j
  {
    if i < j {
      ResultsStay(states, events, i, j - 1, f, outcome);
      NextKeepsResult(states, events, j - 1, f, outcome);
    }
  }

  /** What a leader returns is what it published: the result that every follower of its
      flight finds, from then on. */
  lemma LeaderReturnsWhatItPublished(states: seq<State>, events: seq<Event>, i: nat, j: nat,
                                     c: Caller, outcome: Outcome)
    requires Run(states, events) && i < j < |states| && events[i] == Publish(c, outcome)
    ensures c in states[i].pcs && states[i].pcs[c].Leading? && HasResult(states[j], states[i].pcs[c].flight, outcome)
    ensures HasDecided(states[j], c, outcome)
  {
    PublishDecides(states[i], c, outcome, states[i + 1]);
    ResultsStay(states, events, i + 1, j, states[i].pcs[c].flight, outcome);
    OutcomesAreFinal(states, events, i + 1, j, c, outcome);
  }

  lemma PublishDecides(s: State, c: Caller, outcome: Outcome, s': State)
    requires WellLinked(SharedOf(s)) && Step(s, Publish(c, outcome), s')
    ensures c in s.pcs && s.pcs[c].Leading? && HasResult(s', s.pcs[c].flight, outcome)
    ensures HasDecided(s', c, outcome)
  {
  }

  // ----- what steps do to the jobs and outcomes they carry

  ghost predicate AllJobs(s: State, ok: Job -> bool) {
    && (forall c :: c in s.pcs && !s.pcs[c].Returned? ==> ok(s.pcs[c].job))
    && (forall c :: c in s.pcs && s.pcs[c].Returned? && s.pcs[c].own.Some? ==> ok(s.pcs[c].own.value))
    && (forall f :: 0 <= f < |s.flights| ==> ok(s.flights[f].job))
  }

  /** Only an arrival brings a new job in. */
  lemma StepKeepsJobs(s: State, e: Event, s': State, ok: Job -> bool)
    requires Linked(s) && Step(s, e, s') && AllJobs(s, ok)
    requires e.Arrive? && e.pc.Selected? ==> ok(e.pc.job)
    requires e.Arrive? && e.pc.Returned? ==> e.pc.own.None?
    ensures AllJobs(s', ok)
  {
  }

  ghost predicate PcFits(pc: Pc, fits: (Job, Outcome) -> bool) {
    match pc
    case Registering(job, _, resolution) => fits(job, Ok(resolution))
    case Finished(job, _, outcome) => fits(job, outcome)
    case Removing(job, _, outcome) => fits(job, outcome)
    case Returned(None, outcome) => outcome.Err?
    case Returned(Some(job), outcome) => fits(job, outcome)
    case _ => true
  }

  ghost predicate AllOutcomes(s: State, fits: (Job, Outcome) -> bool) {
    && (forall f :: 0 <= f < |s.flights| && s.flights[f].result.Some? ==>
          fits(s.flights[f].job, s.flights[f].result.value))
    && (forall c :: c in s.pcs ==> PcFits(s.pcs[c], fits))
  }

  /** A follower takes over exactly what its flight's leader published. */
  lemma StepKeepsOutcomes(s: State, e: Event, s': State, fits: (Job, Outcome) -> bool)
    requires Linked(s) && Step(s, e, s') && AllOutcomes(s, fits)
    requires forall job, error :: fits(job, Err(error))
    requires e.Arrive? && e.pc.Returned? ==> e.pc.own.None? && e.pc.outcome.Err?
    requires e.Publish? ==> fits(s.pcs[e.c].job, e.outcome) && fits(s.flights[s.pcs[e.c].flight].job, e.outcome)
    requires e.Look? && s.flights[s.pcs[e.c].flight].result.Some? ==>
      fits(s.pcs[e.c].job, s.flights[s.pcs[e.c].flight].result.value)
    ensures AllOutcomes(s', fits)
  {
    if e.Look? {
      assert fits(s.pcs[e.c].job, Err(TIMEOUT));
    }
    if e.Registered? && e.outcome.Err? {
      assert fits(s.pcs[e.c].job, Err(e.outcome.error));
    }
    forall c | c in s'.pcs
      ensures PcFits(s'.pcs[c], fits)
    {
      assert c in s.pcs ==> PcFits(s.pcs[c], fits);
    }
  }
}
