/**
 Single flight: callers with equal keys share one `Flight`. Every critical
 section of `resolve_detailed`, `wait_for_flight` and `release_flight` is one
 step. Releasing is two steps, because the decrement and the removal from the
 map take different locks: between them a late caller can still join.
 */
module Flights {
  import opened Wrappers
  import opened Releases

  type Caller = nat

  type Outcome = Result<ResolvedRelease, ResolutionError>

  /** `FlightState`, and which caller and job created it (history only). */
  datatype Flight = Flight(leader: Caller, job: Job, callers: int, result: Option<Outcome>)

  datatype Wait = Checking | Asleep | Awake(timedOut: bool)

  /** Program points of `resolve_detailed`. */
  datatype Pc =
    | Selected(job: Job)
    | Leading(job: Job, flight: nat)
    | Waiting(job: Job, flight: nat, wait: Wait)
    | Registering(job: Job, flight: nat, resolution: ResolvedRelease)
    | Finished(job: Job, flight: nat, outcome: Outcome)
    | Removing(job: Job, flight: nat, outcome: Outcome)     // counted out as the last caller
    | Returned(own: Option<Job>, outcome: Outcome)          // no job when refused before the join

  /** `table` is the `flights` map; flight numbers stand for `Arc` identity. */
  datatype State = State(now: nat, table: map<string, nat>, flights: seq<Flight>, pcs: map<Caller, Pc>)

  datatype Event =
    | Arrive(c: Caller, pc: Pc)                       // validated and selected, or refused
    | Join(c: Caller)
    | Publish(c: Caller, outcome: Outcome)
    | Look(c: Caller)                                 // the follower, holding the flight's mutex
    | Rouse(c: Caller, timedOut: bool)                // its timer, or a spurious wake-up
    | Registered(c: Caller, outcome: Outcome)
    | Leave(c: Caller)
    | Remove(c: Caller)
    | Tick

  predicate IsAttached(pc: Pc, f: nat) {
    (pc.Leading? || pc.Waiting? || pc.Registering? || pc.Finished?) && pc.flight == f
  }

  function Attached(s: State, f: nat): (r: set<Caller>)
    ensures forall c :: c in r <==> c in s.pcs && IsAttached(s.pcs[c], f)
  {
    set c | c in s.pcs && IsAttached(s.pcs[c], f)
  }

  predicate IsRemover(s: State, c: Caller, f: nat) {
    c in s.pcs && s.pcs[c].Removing? && s.pcs[c].flight == f
  }

  // ----- the critical sections on the shared map and the flights

  datatype Shared = Shared(table: map<string, nat>, flights: seq<Flight>)

  predicate WellLinked(t: Shared) {
    forall k :: k in t.table ==> t.table[k] < |t.flights|
  }

  /** The join, under `flights` with the flight's own mutex nested. */
  function JoinShared(t: Shared, c: Caller, job: Job): (r: (Shared, nat, bool))
    requires WellLinked(t)
  {
    var key := job.key;
    if key in t.table then
      var f := t.table[key];
      (t.(flights := t.flights[f := t.flights[f].(callers := t.flights[f].callers + 1)]), f, false)
    else
      var f := |t.flights|;
      (Shared(t.table[key := f], t.flights + [Flight(c, job, 1, None)]), f, true)
  }

  function PublishShared(t: Shared, f: nat, outcome: Outcome): Shared
    requires f < |t.flights|
  {
    t.(flights := t.flights[f := t.flights[f].(result := Some(outcome))])
  }

  function LeaveShared(t: Shared, f: nat): Shared
    requires f < |t.flights|
  {
    t.(flights := t.flights[f := t.flights[f].(callers := t.flights[f].callers - 1)])
  }

  /** The guarded removal: only if the map still holds this very flight. */
  function RemoveShared(t: Shared, key: string, f: nat): Shared {
    if key in t.table && t.table[key] == f then t.(table := t.table - {key}) else t
  }

  function SharedOf(s: State): Shared { Shared(s.table, s.flights) }

  function With(s: State, t: Shared, c: Caller, pc: Pc): State {
    s.(table := t.table, flights := t.flights, pcs := s.pcs[c := pc])
  }

  // ----- steps

  const TIMEOUT := ResolutionError(Timeout, true)

  /** `wait_for_flight` between two waits. */
  function Looked(s: State, pc: Pc): Pc
    requires pc.Waiting? && !pc.wait.Asleep? && pc.flight < |s.flights|
  {
    var result := s.flights[pc.flight].result;
    if pc.wait == Awake(true) && result.None? then Finished(pc.job, pc.flight, Err(TIMEOUT))
    else
      match result
      case Some(Ok(resolution)) => Registering(pc.job, pc.flight, resolution)
      case Some(Err(error)) => Finished(pc.job, pc.flight, Err(error))
      case None =>
        if s.now >= pc.job.deadline then Finished(pc.job, pc.flight, Err(TIMEOUT))
        else Waiting(pc.job, pc.flight, Asleep)
  }

  /** `notify_all` on one flight. */
  function Notify(pcs: map<Caller, Pc>, f: nat): map<Caller, Pc> {
    map c | c in pcs ::
      if pcs[c].Waiting? && pcs[c].flight == f && pcs[c].wait.Asleep? then pcs[c].(wait := Awake(false)) else pcs[c]
  }

  ghost predicate Step(s: State, e: Event, s': State)
    requires WellLinked(SharedOf(s))
  {
    match e
    case Arrive(c, pc) =>
      && c !in s.pcs
      && (pc.Selected? || pc.Returned?)
      && s' == s.(pcs := s.pcs[c := pc])
    case Join(c) =>
      && c in s.pcs && s.pcs[c].Selected?
      && var job := s.pcs[c].job;
      && var (t, f, leader) := JoinShared(SharedOf(s), c, job);
      && s' == With(s, t, c, if leader then Leading(job, f) else Waiting(job, f, Checking))
    case Publish(c, outcome) =>
      && c in s.pcs && s.pcs[c].Leading?
      && var Leading(job, f) := s.pcs[c];
      && f < |s.flights|
      && s' == With(s.(pcs := Notify(s.pcs, f)), PublishShared(SharedOf(s), f, outcome), c, Finished(job, f, outcome))
    case Look(c) =>
      && c in s.pcs && s.pcs[c].Waiting? && !s.pcs[c].wait.Asleep?
      && s.pcs[c].flight < |s.flights|
      && s' == s.(pcs := s.pcs[c := Looked(s, s.pcs[c])])
    case Rouse(c, timedOut) =>
      && c in s.pcs && s.pcs[c].Waiting? && s.pcs[c].wait.Asleep?
      && (timedOut ==> s.now >= s.pcs[c].job.deadline)
      && s' == s.(pcs := s.pcs[c := s.pcs[c].(wait := Awake(timedOut))])
    case Registered(c, outcome) =>
      && c in s.pcs && s.pcs[c].Registering?
      && var Registering(job, f, resolution) := s.pcs[c];
      && (outcome.Ok? ==> outcome.value == resolution)
      && s' == s.(pcs := s.pcs[c := Finished(job, f, outcome)])
    case Leave(c) =>
      && c in s.pcs && s.pcs[c].Finished?
      && var Finished(job, f, outcome) := s.pcs[c];
      && f < |s.flights|
      && var t := LeaveShared(SharedOf(s), f);
      && s' == With(s, t, c,
           if t.flights[f].callers == 0 then Removing(job, f, outcome) else Returned(Some(job), outcome))
    case Remove(c) =>
      && c in s.pcs && s.pcs[c].Removing?
      && var Removing(job, f, outcome) := s.pcs[c];
      && s' == With(s, RemoveShared(SharedOf(s), job.key, f), c, Returned(Some(job), outcome))
    case Tick => s' == s.(now := s.now + 1)
  }

  ghost predicate Init(s: State) {
    s.table == map[] && s.flights == [] && s.pcs == map[]
  }

  // ----- the invariant

  ghost predicate OnFlight(pc: Pc) { !pc.Returned? && !pc.Selected? }

  ghost predicate Linked(s: State) {
    && (forall k :: k in s.table ==> s.table[k] < |s.flights| && s.flights[s.table[k]].job.key == k)
    && (forall c :: c in s.pcs && OnFlight(s.pcs[c]) ==>
          s.pcs[c].flight < |s.flights| && s.flights[s.pcs[c].flight].job.key == s.pcs[c].job.key)
  }

  /** `callers` is the number of attached callers. */
  ghost predicate Counted(s: State) {
    forall f :: 0 <= f < |s.flights| ==> s.flights[f].callers == |Attached(s, f)|
  }

  /** A flight without a result is in the map under its own key, its leader attached and leading. */
  ghost predicate UnfinishedIsLed(s: State) {
    forall f {:trigger s.flights[f]} :: 0 <= f < |s.flights| && s.flights[f].result.None? ==>
      && s.flights[f].job.key in s.table
      && s.table[s.flights[f].job.key] == f
      && s.flights[f].leader in s.pcs
      && s.pcs[s.flights[f].leader] == Leading(s.flights[f].job, f)
  }

  ghost predicate LeadersLead(s: State) {
    forall c :: c in s.pcs && s.pcs[c].Leading? ==>
      && s.pcs[c].flight < |s.flights|
      && s.flights[s.pcs[c].flight].leader == c
      && s.flights[s.pcs[c].flight].result.None?
  }

  /** A pending remover's flight already has its result, and so has every flight
      somebody is finished with. */
  ghost predicate RemoversFollowResults(s: State) {
    forall c :: c in s.pcs && s.pcs[c].Removing? ==>
      s.pcs[c].flight < |s.flights| && s.flights[s.pcs[c].flight].result.Some?
  }

  /** A mapped flight that nobody is attached to is about to be removed. */
  ghost predicate ZeroIsBeingRemoved(s: State) {
    forall k :: k in s.table && s.table[k] < |s.flights| && s.flights[s.table[k]].callers == 0 ==>
      exists c :: IsRemover(s, c, s.table[k])
  }

  /** No follower sleeps through a published result. */
  ghost predicate SleepersAwaitResult(s: State) {
    forall c :: c in s.pcs && s.pcs[c].Waiting? && s.pcs[c].wait.Asleep? ==>
      s.pcs[c].flight < |s.flights| && s.flights[s.pcs[c].flight].result.None?
  }

  /** Everything but the counts and the pending removals. */
  ghost predicate Standing(s: State) {
    && Linked(s)
    && UnfinishedIsLed(s)
    && LeadersLead(s)
    && RemoversFollowResults(s)
    && SleepersAwaitResult(s)
  }

  ghost predicate Inv(s: State) {
    Standing(s) && Counted(s) && ZeroIsBeingRemoved(s)
  }
}
