/**
 The whole resolver: the flights and the permit pool running together. A caller
 that materializes or registers roots steps through the program of its own
 functions. Nothing but that program keeps it from asking for a second permit:
 every call of `acquire_permit` enters the pool as a ticket of its own. An error
 leaves every open scope, dropping its permit. Inspections run without a flight.
 */
module ResolverSystem {
  import opened Wrappers
  import opened Releases
  import opened Programs
  import F = Flights
  import FP = FlightProofs
  import P = Permits
  import C = Coalescing

  type Caller = nat

  /** At a program point, inside `acquire_permit`, or leaving scopes after an error. */
  datatype Mode = Running | Acquiring | Failing

  datatype Work = Work(program: Program, at: nat, mode: Mode)

  datatype System = System(flights: F.State, pool: P.Pool, work: map<Caller, Work>)

  datatype Action =
    | Flight(e: F.Event)
    | StartInspection(c: Caller)
    | EndInspection(c: Caller)
    | Ask(c: Caller, deadline: nat)                        // `acquire_permit` is called
    | Section(inner: P.Event)                              // one section under the permits mutex
    | Perform(c: Caller, ok: bool)                         // a command or a local statement
    | Close(c: Caller, woken: Option<P.Ticket>)            // the permit's scope ends
    | Unwind(c: Caller, woken: Option<P.Ticket>)           // an error leaves the scope
    | Tick

  predicate InStage(pc: F.Pc) { pc.Leading? || pc.Registering? }

  function StageWork(pc: F.Pc): Work
    requires InStage(pc)
  {
    Work(if pc.Leading? then LeaderProgram(pc.job) else FollowerProgram(pc.resolution), 0, Running)
  }

  predicate AtOp(w: Work, op: Op) { w.mode == Running && w.at < |w.program| && w.program[w.at] == op }

  /** The scope a caller's next statement is in. */
  function Scope(w: Work): Option<nat> {
    if w.at <= |w.program| then Open(w.program, w.at) else None
  }

  /** The stage is over: the program ended, or an error has left every scope. */
  predicate StageOver(w: Work, ok: bool) {
    if ok then w.mode == Running && w.at == |w.program| else w.mode == Failing && Scope(w).None?
  }

  function Performed(w: Work, ok: bool): Work { if ok then w.(at := w.at + 1) else w.(mode := Failing) }

  /** The bookkeeping of `work` around a flight step. */
  function WorkAfter(s: System, e: F.Event, flights': F.State): map<Caller, Work> {
    if e.Publish? || e.Registered? then s.work - {e.c}
    else if (e.Join? || e.Look?) && e.c in flights'.pcs && InStage(flights'.pcs[e.c]) then
      s.work[e.c := StageWork(flights'.pcs[e.c])]
    else s.work
  }

  /** What a section under the permits mutex means for the caller whose ticket it decided. */
  function WorkAfterSection(s: System, e: P.Event, pool': P.Pool): map<Caller, Work> {
    if e.Check? && e.c.caller in s.work then
      var w := s.work[e.c.caller];
      if e.c !in pool'.entries then s.work[e.c.caller := w.(mode := Failing)]
      else if pool'.entries[e.c].phase == P.Holding then s.work[e.c.caller := w.(mode := Running, at := w.at + 1)]
      else s.work
    else s.work
  }

  ghost predicate Step(max: nat, s: System, a: Action, s': System)
    requires F.WellLinked(F.SharedOf(s.flights))
  {
    match a
    case Flight(e) =>
      && !e.Tick?
      && (e.Arrive? ==> e.c !in s.work)
      && (e.Publish? || e.Registered? ==> e.c in s.work && StageOver(s.work[e.c], e.outcome.Ok?))
      && F.Step(s.flights, e, s'.flights)
      && s'.pool == s.pool
      && s'.work == WorkAfter(s, e, s'.flights)
    case StartInspection(c) =>
      && c !in s.work && c !in s.flights.pcs
      && s' == s.(work := s.work[c := Work(INSPECTION, 0, Running)])
    case EndInspection(c) =>
      && c in s.work && c !in s.flights.pcs
      && (StageOver(s.work[c], true) || StageOver(s.work[c], false))
      && s' == s.(work := s.work - {c})
    case Ask(c, deadline) =>
      && c in s.work && AtOp(s.work[c], Acquire)
      && (c in s.flights.pcs ==> InStage(s.flights.pcs[c]) && deadline == s.flights.pcs[c].job.deadline)
      && P.Step(max, s.pool, P.Enter(P.Ticket(c, s.work[c].at), deadline), s'.pool)
      && s'.flights == s.flights
      && s'.work == s.work[c := s.work[c].(mode := Acquiring)]
    case Section(e) =>
      && (e.Check? || e.Wake? || e.LateTimer?)
      && P.Step(max, s.pool, e, s'.pool)
      && s'.flights == s.flights
      && s'.work == WorkAfterSection(s, e, s'.pool)
    case Perform(c, ok) =>
      && c in s.work && (AtOp(s.work[c], Local) || AtOp(s.work[c], Command))
      && s' == s.(work := s.work[c := Performed(s.work[c], ok)])
    case Close(c, woken) =>
      && c in s.work && AtOp(s.work[c], Op.Drop) && Scope(s.work[c]).Some?
      && P.Step(max, s.pool, P.Event.Drop(P.Ticket(c, Scope(s.work[c]).value), woken), s'.pool)
      && s'.flights == s.flights
      && s'.work == s.work[c := s.work[c].(at := s.work[c].at + 1)]
    case Unwind(c, woken) =>
      && c in s.work && s.work[c].mode == Failing && Scope(s.work[c]).Some?
      && P.Step(max, s.pool, P.Event.Drop(P.Ticket(c, Scope(s.work[c]).value), woken), s'.pool)
      && s'.flights == s.flights
      && s'.work == s.work[c := s.work[c].(at := Scope(s.work[c]).value)]
    case Tick =>
      && F.Step(s.flights, F.Event.Tick, s'.flights)
      && P.Step(max, s.pool, P.Event.Tick, s'.pool)
      && s'.work == s.work
  }

  /** What a step carries: admitted jobs come in, and a leader publishes what its
      own materialization returned. */
  ghost predicate Carries(node: Node, s: System, a: Action) {
    a.Flight? ==> C.Allowed(node, s.flights, a.e)
  }

  ghost predicate Init(s: System) {
    F.Init(s.flights) && P.Init(s.pool) && s.work == map[]
  }

  // ----- the invariant

  ghost predicate GoodWork(w: Work) {
    && Disciplined(w.program) && w.at <= |w.program|
    && (w.mode == Acquiring ==> w.at < |w.program| && w.program[w.at] == Acquire)
  }

  /** A ticket is either the permit of the scope its caller is in, or the call the
      caller is blocked in. */
  predicate Accounts(w: Work, site: nat, holding: bool) {
    if holding then Scope(w) == Some(site) else w.mode == Acquiring && w.at == site
  }

  ghost predicate Staged(s: System) {
    && (forall c :: c in s.flights.pcs ==> (InStage(s.flights.pcs[c]) <==> c in s.work))
    && (forall c :: c in s.work ==> GoodWork(s.work[c]))
  }

  type Entries = map<P.Ticket, P.Entry>

  predicate Held(entries: Entries, t: P.Ticket) { t in entries && entries[t].phase == P.Holding }

  ghost predicate TicketsAccounted(entries: Entries, work: map<Caller, Work>) {
    forall t :: t in entries ==> t.caller in work && Accounts(work[t.caller], t.site, Held(entries, t))
  }

  ghost predicate ScopesHeld(entries: Entries, work: map<Caller, Work>) {
    forall c :: c in work ==>
      && (Scope(work[c]).Some? ==> Held(entries, P.Ticket(c, Scope(work[c]).value)))
      && (work[c].mode == Acquiring ==> P.Ticket(c, work[c].at) in entries && !Held(entries, P.Ticket(c, work[c].at)))
  }

  ghost predicate Matched(entries: Entries, work: map<Caller, Work>) {
    TicketsAccounted(entries, work) && ScopesHeld(entries, work)
  }

  /** How the two machines fit together. */
  ghost predicate Coupled(s: System) { Staged(s) && Matched(s.pool.entries, s.work) }

  ghost predicate Inv(max: nat, s: System) { F.Inv(s.flights) && P.Inv(max, s.pool) && Coupled(s) }

  /** A caller about to ask for a permit is in no permit's scope. */
  lemma AskersHoldNothing(s: System, c: Caller)
    requires Coupled(s) && c in s.work && (AtOp(s.work[c], Acquire) || s.work[c].mode == Acquiring)
    ensures Scope(s.work[c]) == None
  {
    assert InScope(s.work[c].program, s.work[c].at);
  }

  /** So no caller is in the pool twice. */
  lemma OneTicketEach(s: System, t1: P.Ticket, t2: P.Ticket)
    requires Coupled(s) && t1 in s.pool.entries && t2 in s.pool.entries && t1.caller == t2.caller
    ensures t1 == t2
  {
    if s.work[t1.caller].mode == Acquiring {
      AskersHoldNothing(s, t1.caller);
    }
  }

  /** A flight step changes the stage of its own caller only. */
  lemma OthersKeepStage(f: F.State, e: F.Event, f': F.State)
    requires F.Linked(f) && !e.Tick? && F.Step(f, e, f')
    ensures f'.pcs.Keys == f.pcs.Keys + {e.c}
    ensures forall c :: c in f.pcs && c != e.c ==> (InStage(f'.pcs[c]) <==> InStage(f.pcs[c]))
    ensures !e.Arrive? ==> e.c in f.pcs
    ensures e.Publish? || e.Registered? ==> InStage(f.pcs[e.c]) && !InStage(f'.pcs[e.c])
    ensures !(e.Publish? || e.Registered?) ==> (e.c in f.pcs ==> !InStage(f.pcs[e.c]))
    ensures InStage(f'.pcs[e.c]) ==> e.Join? || e.Look?
  {
  }

  lemma StageStartsWell(pc: F.Pc)
    requires InStage(pc)
    ensures GoodWork(StageWork(pc)) && Scope(StageWork(pc)) == None && StageWork(pc).mode == Running
  {
    ProgramsAreDisciplined(pc.job, if pc.Leading? then ResolvedRelease("", "", None, []) else pc.resolution);
  }

  // ----- one caller at a time: how its work and the pool change together

  /** Everybody else's tickets stay as they are. */
  ghost predicate OthersSame(entries: Entries, entries': Entries, t: P.Ticket) {
    forall u :: u != t ==> (u in entries' <==> u in entries) && (Held(entries', u) <==> Held(entries, u))
  }

  lemma IdleMatches(entries: Entries, work: map<Caller, Work>, c: Caller, w: Work)
    requires Matched(entries, work) && (c in work ==> Scope(work[c]) == None && work[c].mode != Acquiring)
    requires Scope(w) == None && w.mode != Acquiring
    ensures Matched(entries, work[c := w]) && Matched(entries, work - {c})
  {
    assert forall t :: t in entries ==> t.caller != c;
  }

  lemma AskedMatches(entries: Entries, entries': Entries, work: map<Caller, Work>, t: P.Ticket)
    requires Matched(entries, work) && t.caller in work && t.site == work[t.caller].at && Scope(work[t.caller]) == None
    requires work[t.caller].mode == Running && OthersSame(entries, entries', t)
    requires t in entries' && !Held(entries', t)
    ensures Matched(entries', work[t.caller := work[t.caller].(mode := Acquiring)])
  {
    assert forall u :: u in entries ==> u.caller != t.caller;
  }

  lemma AcquiredMatches(entries: Entries, entries': Entries, work: map<Caller, Work>, t: P.Ticket)
    requires Matched(entries, work) && t in entries && !Held(entries, t) && Held(entries', t)
    requires OthersSame(entries, entries', t) && GoodWork(work[t.caller]) && Scope(work[t.caller]) == None
    ensures Matched(entries', work[t.caller := work[t.caller].(mode := Running, at := work[t.caller].at + 1)])
  {
    assert forall u :: u in entries && u.caller == t.caller ==> u == t;
    assert Open(work[t.caller].program, work[t.caller].at + 1) == Some(t.site);
  }

  /** Who holds what is all that matters of the others. */
  lemma BlockedMatches(entries: Entries, entries': Entries, work: map<Caller, Work>, t: P.Ticket)
    requires Matched(entries, work) && OthersSame(entries, entries', t)
    requires (t in entries <==> t in entries') && (Held(entries, t) <==> Held(entries', t))
    ensures Matched(entries', work)
  {
  }

  lemma ExpiredMatches(entries: Entries, entries': Entries, work: map<Caller, Work>, t: P.Ticket)
    requires Matched(entries, work) && t in entries && !Held(entries, t) && Scope(work[t.caller]) == None
    requires t !in entries' && OthersSame(entries, entries', t)
    ensures Matched(entries', work[t.caller := work[t.caller].(mode := Failing)])
  {
    assert forall u :: u in entries && u.caller == t.caller ==> u == t;
  }

  lemma PerformedMatches(entries: Entries, work: map<Caller, Work>, c: Caller, w: Work)
    requires Matched(entries, work) && c in work && work[c].mode != Acquiring && w.mode != Acquiring
    requires Scope(w) == Scope(work[c])
    ensures Matched(entries, work[c := w])
  {
  }

  lemma DroppedMatches(entries: Entries, entries': Entries, work: map<Caller, Work>, t: P.Ticket, w: Work)
    requires Matched(entries, work) && t.caller in work && Scope(work[t.caller]) == Some(t.site)
    requires work[t.caller].mode != Acquiring && w.mode != Acquiring && Scope(w) == None
    requires t !in entries' && OthersSame(entries, entries', t)
    ensures Matched(entries', work[t.caller := w])
  {
    assert forall u :: u in entries && u.caller == t.caller ==> u == t;
  }

  // ----- what the pool's steps do to the tickets

  lemma EnteredEntries(max: nat, p: P.Pool, t: P.Ticket, deadline: nat, p': P.Pool)
    requires P.Step(max, p, P.Enter(t, deadline), p')
    ensures t in p'.entries && !Held(p'.entries, t) && OthersSame(p.entries, p'.entries, t)
  {
  }

  lemma CheckedEntries(max: nat, p: P.Pool, t: P.Ticket)
    requires P.CanCheck(p, t)
    ensures t in p.entries && !Held(p.entries, t) && OthersSame(p.entries, P.Checked(max, p, t).entries, t)
    ensures match P.Decide(max, p, t)
      case Acquired => Held(P.Checked(max, p, t).entries, t)
      case Blocked => t in P.Checked(max, p, t).entries && !Held(P.Checked(max, p, t).entries, t)
      case Expired => t !in P.Checked(max, p, t).entries
  {
  }

  lemma WokenEntries(max: nat, p: P.Pool, e: P.Event, p': P.Pool)
    requires (e.Wake? || e.LateTimer?) && P.Step(max, p, e, p')
    ensures e.c in p.entries && e.c in p'.entries && !Held(p.entries, e.c) && !Held(p'.entries, e.c)
    ensures OthersSame(p.entries, p'.entries, e.c)
  {
  }

  lemma DroppedEntries(max: nat, p: P.Pool, t: P.Ticket, woken: Option<P.Ticket>, p': P.Pool)
    requires P.Step(max, p, P.Event.Drop(t, woken), p')
    ensures Held(p.entries, t) && t !in p'.entries && OthersSame(p.entries, p'.entries, t)
  {
  }

  // ----- every step keeps the coupling

  lemma FlightKeepsCoupled(s: System, e: F.Event, s': System)
    requires F.Linked(s.flights) && Coupled(s) && !e.Tick? && F.Step(s.flights, e, s'.flights)
    requires e.Arrive? ==> e.c !in s.work
    requires e.Publish? || e.Registered? ==> e.c in s.work && StageOver(s.work[e.c], e.outcome.Ok?)
    requires s'.pool == s.pool && s'.work == WorkAfter(s, e, s'.flights)
    ensures Coupled(s')
  {
    OthersKeepStage(s.flights, e, s'.flights);
    var idle := Work([], 0, Running);
    assert Scope(idle) == None;
    if InStage(s'.flights.pcs[e.c]) {
      StageStartsWell(s'.flights.pcs[e.c]);
      IdleMatches(s.pool.entries, s.work, e.c, StageWork(s'.flights.pcs[e.c]));
    } else if e.Publish? || e.Registered? {
      IdleMatches(s.pool.entries, s.work, e.c, idle);
    }
  }

  /** The other half: a caller's own work stays well-formed, and nobody else's changes. */
  lemma StaysStaged(s: System, c: Caller, w: Work, s': System)
    requires Staged(s) && c in s.work && GoodWork(w) && s'.flights == s.flights && s'.work == s.work[c := w]
    ensures Staged(s')
  {
  }

  lemma InspectionKeepsCoupled(s: System, c: Caller, s': System)
    requires Coupled(s) && c !in s.work && c !in s.flights.pcs
    requires s' == s.(work := s.work[c := Work(INSPECTION, 0, Running)])
    ensures Coupled(s')
  {
    InspectionIsDisciplined(INSPECTION);
    IdleMatches(s.pool.entries, s.work, c, Work(INSPECTION, 0, Running));
  }

  lemma EndKeepsCoupled(s: System, c: Caller, s': System)
    requires Coupled(s) && c in s.work && c !in s.flights.pcs
    requires StageOver(s.work[c], true) || StageOver(s.work[c], false)
    requires s' == s.(work := s.work - {c})
    ensures Coupled(s')
  {
    IdleMatches(s.pool.entries, s.work, c, s.work[c]);
  }

  lemma AskKeepsCoupled(max: nat, s: System, c: Caller, deadline: nat, s': System)
    requires Coupled(s) && c in s.work && AtOp(s.work[c], Acquire) && s'.flights == s.flights
    requires P.Step(max, s.pool, P.Enter(P.Ticket(c, s.work[c].at), deadline), s'.pool)
    requires s'.work == s.work[c := s.work[c].(mode := Acquiring)]
    ensures Coupled(s')
  {
    AskersHoldNothing(s, c);
    EnteredEntries(max, s.pool, P.Ticket(c, s.work[c].at), deadline, s'.pool);
    AskedMatches(s.pool.entries, s'.pool.entries, s.work, P.Ticket(c, s.work[c].at));
    StaysStaged(s, c, s.work[c].(mode := Acquiring), s');
  }

  lemma AcquiredKeepsCoupled(s: System, t: P.Ticket, s': System)
    requires Coupled(s) && t in s.pool.entries && !Held(s.pool.entries, t) && Held(s'.pool.entries, t)
    requires OthersSame(s.pool.entries, s'.pool.entries, t) && s'.flights == s.flights
    requires s'.work == s.work[t.caller := s.work[t.caller].(mode := Running, at := s.work[t.caller].at + 1)]
    ensures Coupled(s')
  {
    AskersHoldNothing(s, t.caller);
    AcquiredMatches(s.pool.entries, s'.pool.entries, s.work, t);
    StaysStaged(s, t.caller, s'.work[t.caller], s');
  }

  lemma ExpiredKeepsCoupled(s: System, t: P.Ticket, s': System)
    requires Coupled(s) && t in s.pool.entries && !Held(s.pool.entries, t) && t !in s'.pool.entries
    requires OthersSame(s.pool.entries, s'.pool.entries, t) && s'.flights == s.flights
    requires s'.work == s.work[t.caller := s.work[t.caller].(mode := Failing)]
    ensures Coupled(s')
  {
    AskersHoldNothing(s, t.caller);
    ExpiredMatches(s.pool.entries, s'.pool.entries, s.work, t);
    StaysStaged(s, t.caller, s'.work[t.caller], s');
  }

  lemma BlockedKeepsCoupled(s: System, t: P.Ticket, s': System)
    requires Coupled(s) && t in s.pool.entries && !Held(s.pool.entries, t)
    requires t in s'.pool.entries && !Held(s'.pool.entries, t) && OthersSame(s.pool.entries, s'.pool.entries, t)
    requires s'.flights == s.flights && s'.work == s.work
    ensures Coupled(s')
  {
    BlockedMatches(s.pool.entries, s'.pool.entries, s.work, t);
  }

  lemma CheckKeepsCoupled(max: nat, s: System, t: P.Ticket, s': System)
    requires Coupled(s) && P.CanCheck(s.pool, t) && s'.pool == P.Checked(max, s.pool, t)
    requires s'.flights == s.flights && s'.work == WorkAfterSection(s, P.Check(t), s'.pool)
    ensures Coupled(s')
  {
    CheckedEntries(max, s.pool, t);
    if t !in s'.pool.entries {
      ExpiredKeepsCoupled(s, t, s');
    } else if Held(s'.pool.entries, t) {
      AcquiredKeepsCoupled(s, t, s');
    } else {
      BlockedKeepsCoupled(s, t, s');
    }
  }

  lemma SectionKeepsCoupled(max: nat, s: System, e: P.Event, s': System)
    requires Coupled(s) && (e.Check? || e.Wake? || e.LateTimer?) && P.Step(max, s.pool, e, s'.pool)
    requires s'.flights == s.flights && s'.work == WorkAfterSection(s, e, s'.pool)
    ensures Coupled(s')
  {
    if e.Check? {
      CheckKeepsCoupled(max, s, e.c, s');
    } else {
      WokenEntries(max, s.pool, e, s'.pool);
      BlockedKeepsCoupled(s, e.c, s');
    }
  }

  lemma PerformKeepsCoupled(s: System, c: Caller, ok: bool, s': System)
    requires Coupled(s) && c in s.work && (AtOp(s.work[c], Local) || AtOp(s.work[c], Command))
    requires s' == s.(work := s.work[c := Performed(s.work[c], ok)])
    ensures Coupled(s')
  {
    PerformedMatches(s.pool.entries, s.work, c, s'.work[c]);
    StaysStaged(s, c, s'.work[c], s');
  }

  lemma ScopeAfterClose(w: Work)
    requires GoodWork(w) && Scope(w).Some?
    ensures Open(w.program, Scope(w).value) == None
    ensures AtOp(w, Op.Drop) ==> GoodWork(w.(at := w.at + 1)) && Scope(w.(at := w.at + 1)) == None
    ensures w.mode == Failing ==> GoodWork(w.(at := Scope(w).value)) && Scope(w.(at := Scope(w).value)) == None
  {
    assert InScope(w.program, Scope(w).value);
  }

  lemma DropKeepsCoupled(max: nat, s: System, c: Caller, woken: Option<P.Ticket>, w: Work, s': System)
    requires Coupled(s) && c in s.work && Scope(s.work[c]).Some? && s.work[c].mode != Acquiring
    requires P.Step(max, s.pool, P.Event.Drop(P.Ticket(c, Scope(s.work[c]).value), woken), s'.pool)
    requires GoodWork(w) && Scope(w) == None && w.mode != Acquiring
    requires s'.flights == s.flights && s'.work == s.work[c := w]
    ensures Coupled(s')
  {
    var t := P.Ticket(c, Scope(s.work[c]).value);
    DroppedEntries(max, s.pool, t, woken, s'.pool);
    DroppedMatches(s.pool.entries, s'.pool.entries, s.work, t, w);
    StaysStaged(s, c, w, s');
  }

  lemma CloseKeepsCoupled(max: nat, s: System, c: Caller, woken: Option<P.Ticket>, s': System)
    requires Coupled(s) && c in s.work && AtOp(s.work[c], Op.Drop) && Scope(s.work[c]).Some? && s'.flights == s.flights
    requires P.Step(max, s.pool, P.Event.Drop(P.Ticket(c, Scope(s.work[c]).value), woken), s'.pool)
    requires s'.work == s.work[c := s.work[c].(at := s.work[c].at + 1)]
    ensures Coupled(s')
  {
    ScopeAfterClose(s.work[c]);
    DropKeepsCoupled(max, s, c, woken, s'.work[c], s');
  }

  lemma UnwindKeepsCoupled(max: nat, s: System, c: Caller, woken: Option<P.Ticket>, s': System)
    requires Coupled(s) && c in s.work && s.work[c].mode == Failing && Scope(s.work[c]).Some?
    requires P.Step(max, s.pool, P.Event.Drop(P.Ticket(c, Scope(s.work[c]).value), woken), s'.pool)
    requires s'.flights == s.flights && s'.work == s.work[c := s.work[c].(at := Scope(s.work[c]).value)]
    ensures Coupled(s')
  {
    ScopeAfterClose(s.work[c]);
    DropKeepsCoupled(max, s, c, woken, s'.work[c], s');
  }

  lemma DropStepsKeepCoupled(max: nat, s: System, a: Action, s': System)
    requires F.WellLinked(F.SharedOf(s.flights)) && Coupled(s) && Step(max, s, a, s') && (a.Close? || a.Unwind?)
    ensures Coupled(s')
  {
    if a.Close? {
      CloseKeepsCoupled(max, s, a.c, a.woken, s');
    } else {
      UnwindKeepsCoupled(max, s, a.c, a.woken, s');
    }
  }

  lemma ProgramStepsKeepCoupled(max: nat, s: System, a: Action, s': System)
    requires F.WellLinked(F.SharedOf(s.flights)) && Coupled(s) && Step(max, s, a, s')
    requires a.Ask? || a.Section? || a.Perform?
    ensures Coupled(s')
  {
    if a.Ask? {
      AskKeepsCoupled(max, s, a.c, a.deadline, s');
    } else if a.Section? {
      SectionKeepsCoupled(max, s, a.inner, s');
    } else {
      PerformKeepsCoupled(s, a.c, a.ok, s');
    }
  }

  lemma StepKeepsCoupled(max: nat, s: System, a: Action, s': System)
    requires F.Linked(s.flights) && Coupled(s) && Step(max, s, a, s')
    ensures Coupled(s')
  {
    if a.Close? || a.Unwind? {
      DropStepsKeepCoupled(max, s, a, s');
    } else if a.Ask? || a.Section? || a.Perform? {
      ProgramStepsKeepCoupled(max, s, a, s');
    } else if a.Flight? {
      FlightKeepsCoupled(s, a.e, s');
    } else if a.StartInspection? {
      InspectionKeepsCoupled(s, a.c, s');
    } else if a.EndInspection? {
      EndKeepsCoupled(s, a.c, s');
    }
  }

  /** The permit pool takes one of its own steps, or none. */
  lemma StepKeepsPool(max: nat, s: System, a: Action, s': System)
    requires F.WellLinked(F.SharedOf(s.flights)) && P.Inv(max, s.pool) && Step(max, s, a, s')
    ensures P.Inv(max, s'.pool)
  {
    match a
    case Ask(c, deadline) => P.StepPreserves(max, s.pool, P.Enter(P.Ticket(c, s.work[c].at), deadline), s'.pool);
    case Section(e) => P.StepPreserves(max, s.pool, e, s'.pool);
    case Close(c, woken) =>
      P.StepPreserves(max, s.pool, P.Event.Drop(P.Ticket(c, Scope(s.work[c]).value), woken), s'.pool);
    case Unwind(c, woken) =>
      P.StepPreserves(max, s.pool, P.Event.Drop(P.Ticket(c, Scope(s.work[c]).value), woken), s'.pool);
    case Tick => P.StepPreserves(max, s.pool, P.Event.Tick, s'.pool);
    case _ =>
  }

  /** And so do the flights. */
  lemma StepOfFlights(max: nat, s: System, a: Action, s': System)
    requires F.WellLinked(F.SharedOf(s.flights)) && Step(max, s, a, s')
    ensures a.Flight? ==> F.Step(s.flights, a.e, s'.flights)
    ensures a.Tick? ==> F.Step(s.flights, F.Event.Tick, s'.flights)
    ensures !a.Flight? && !a.Tick? ==> s'.flights == s.flights
  {
  }

  lemma StepPreserves(max: nat, s: System, a: Action, s': System)
    requires Inv(max, s) && Step(max, s, a, s')
    ensures Inv(max, s')
  {
    StepKeepsCoupled(max, s, a, s');
    StepKeepsPool(max, s, a, s');
    StepOfFlights(max, s, a, s');
    if a.Flight? {
      FP.StepPreserves(s.flights, a.e, s'.flights);
    } else if a.Tick? {
      FP.StepPreserves(s.flights, F.Event.Tick, s'.flights);
    }
  }

  ghost predicate Run(max: nat, states: seq<System>, actions: seq<Action>) {
    && |states| == |actions| + 1
    && Init(states[0])
    && forall i :: 0 <= i < |actions| ==>
         F.WellLinked(F.SharedOf(states[i].flights)) && Step(max, states[i], actions[i], states[i + 1])
  }

  ghost predicate AllCarry(node: Node, states: seq<System>, actions: seq<Action>) {
    |states| == |actions| + 1 && forall i :: 0 <= i < |actions| ==> Carries(node, states[i], actions[i])
  }

  /** Both machines keep their invariants while running together. */
  lemma {:induction false} RunsKeepInv(max: nat, states: seq<System>, actions: seq<Action>, i: nat)
    requires Run(max, states, actions) && i < |states|
    ensures Inv(max, states[i])
  {
    if i == 0 {
      assert P.Holders(states[0].pool) == {} && P.Sleepers(states[0].pool) == {};
    } else {
      RunsKeepInv(max, states, actions, i - 1);
      StepPreserves(max, states[i - 1], actions[i - 1], states[i]);
    }
  }

  lemma StepKeepsAdmitted(node: Node, max: nat, s: System, a: Action, s': System)
    requires F.Linked(s.flights) && C.JobsAdmitted(node, s.flights) && Step(max, s, a, s') && Carries(node, s, a)
    ensures C.JobsAdmitted(node, s'.flights)
  {
    StepOfFlights(max, s, a, s');
    if a.Flight? {
      C.StepKeepsAdmitted(node, s.flights, a.e, s'.flights);
    } else if a.Tick? {
      C.StepKeepsAdmitted(node, s.flights, F.Event.Tick, s'.flights);
    }
  }

  lemma StepKeepsFaithful(node: Node, max: nat, s: System, a: Action, s': System)
    requires NoCollisions(node) && F.Inv(s.flights) && C.Faithful(node, s.flights)
    requires Step(max, s, a, s') && Carries(node, s, a)
    ensures C.Faithful(node, s'.flights)
  {
    StepOfFlights(max, s, a, s');
    if a.Flight? {
      C.StepKeepsFaithful(node, s.flights, a.e, s'.flights);
    } else if a.Tick? {
      C.StepKeepsFaithful(node, s.flights, F.Event.Tick, s'.flights);
    }
  }

  lemma {:induction false} RunsStayAdmitted(node: Node, max: nat, states: seq<System>, actions: seq<Action>, i: nat)
    requires Run(max, states, actions) && AllCarry(node, states, actions) && i < |states|
    ensures C.JobsAdmitted(node, states[i].flights)
  {
    if i > 0 {
      RunsKeepInv(max, states, actions, i - 1);
      RunsStayAdmitted(node, max, states, actions, i - 1);
      StepKeepsAdmitted(node, max, states[i - 1], actions[i - 1], states[i]);
    }
  }

  /** What callers get out of the composed system is faithful throughout. */
  lemma {:induction false} RunsStayFaithful(node: Node, max: nat, states: seq<System>, actions: seq<Action>, i: nat)
    requires NoCollisions(node) && Run(max, states, actions) && AllCarry(node, states, actions) && i < |states|
    ensures C.Faithful(node, states[i].flights)
  {
    if i > 0 {
      RunsKeepInv(max, states, actions, i - 1);
      RunsStayFaithful(node, max, states, actions, i - 1);
      StepKeepsFaithful(node, max, states[i - 1], actions[i - 1], states[i]);
    }
  }

  /** In every reachable state no caller holds one permit while it asks for
      another, none has two, and a caller waiting on a flight has none. */
  lemma PermitsDoNotNest(max: nat, states: seq<System>, actions: seq<Action>, i: nat, c: Caller)
    requires Run(max, states, actions) && i < |states|
    ensures c in states[i].work && (AtOp(states[i].work[c], Acquire) || states[i].work[c].mode == Acquiring) ==>
      forall t :: t in P.Holders(states[i].pool) ==> t.caller != c
    ensures var entries := states[i].pool.entries;
      forall t1, t2 :: t1 in entries && t2 in entries && t1.caller == t2.caller ==> t1 == t2
    ensures c in states[i].flights.pcs && states[i].flights.pcs[c].Waiting? ==>
      forall t :: t in states[i].pool.entries ==> t.caller != c
  {
    var s := states[i];
    RunsKeepInv(max, states, actions, i);
    if c in s.work && (AtOp(s.work[c], Acquire) || s.work[c].mode == Acquiring) {
      AskersHoldNothing(s, c);
    }
    forall t1, t2 | t1 in s.pool.entries && t2 in s.pool.entries && t1.caller == t2.caller
      ensures t1 == t2
    {
      OneTicketEach(s, t1, t2);
    }
  }

  // ----- how many Nix commands run

  /** A stage runs Nix once for each store path of the resolution a follower was handed
      or a leader selected, once for a closure, and twice for a development source; and
      every one of these commands takes a permit of its own. */
  lemma StageRunsNix(pc: F.Pc)
    requires InStage(pc) && (pc.Leading? && pc.job.request.materialize.Release? ==> pc.job.selected.Some?)
    ensures var commands :=
        if pc.Registering? then 1 + |pc.resolution.mounts|
        else match pc.job.request.materialize
          case Release(_) => 1 + |pc.job.selected.value.resolution.mounts|
          case Closure(_) => 1
          case Flake(_) => 2;
      && multiset(StageWork(pc).program)[Command] == commands
      && multiset(StageWork(pc).program)[Acquire] == commands
  {
    if pc.Registering? {
      FollowerRunsNix(pc.resolution);
    } else {
      LeaderRunsNix(pc.job);
    }
  }

  function Commanding(s: System): (r: set<Caller>)
    ensures forall c :: c in r <==> c in s.work && AtOp(s.work[c], Command)
  {
    set c | c in s.work && AtOp(s.work[c], Command)
  }

  /** Whoever runs a command owns the permit of the scope it is in. */
  lemma CommandHoldsPermit(s: System, c: Caller)
    requires Coupled(s) && c in Commanding(s)
    ensures Scope(s.work[c]).Some? && P.Ticket(c, Scope(s.work[c]).value) in P.Holders(s.pool)
  {
    assert InScope(s.work[c].program, s.work[c].at);
  }

  /** Callers that own different tickets are no more than the tickets. */
  lemma {:induction false} CallersWithin(callers: set<Caller>, tickets: set<P.Ticket>)
    requires forall c :: c in callers ==> exists t :: t in tickets && t.caller == c
    ensures |callers| <= |tickets|
    decreases |callers|
  {
    if callers != {} {
      var c :| c in callers;
      var t :| t in tickets && t.caller == c;
      forall d | d in callers - {c}
        ensures exists u :: u in tickets - {t} && u.caller == d
      {
        var u :| u in tickets && u.caller == d;
        assert u in tickets - {t};
      }
      CallersWithin(callers - {c}, tickets - {t});
    }
  }

  /** In every reachable state at most `max` Nix commands are running, whoever runs
      them: leaders, followers and inspections together. */
  lemma CommandsAreBounded(max: nat, states: seq<System>, actions: seq<Action>, i: nat)
    requires Run(max, states, actions) && i < |states|
    ensures |Commanding(states[i])| <= max
    ensures forall c :: c in Commanding(states[i]) ==> exists t :: t in P.Holders(states[i].pool) && t.caller == c
  {
    var s := states[i];
    RunsKeepInv(max, states, actions, i);
    forall c | c in Commanding(s)
      ensures exists t :: t in P.Holders(s.pool) && t.caller == c
    {
      CommandHoldsPermit(s, c);
    }
    CallersWithin(Commanding(s), P.Holders(s.pool));
  }
}
