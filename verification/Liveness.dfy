/**
 Deadlock freedom and completion of the resolver, for every limit of at least
 one. Steps are split into advances, which callers take on their own, and the
 environment: arrivals, timers and spurious wake-ups. While any request is
 unfinished, some advance is enabled in which nobody gives up and nothing fails;
 and every advance lowers a measure, so everybody returns.
 */
module Liveness {
  import opened Wrappers
  import opened Releases
  import opened GcRootProofs
  import opened Materialization
  import opened Programs
  import F = Flights
  import FlightProofs
  import P = Permits
  import C = Coalescing
  import opened ResolverSystem

  /** Steps that need no timer, no spurious wake-up and no newcomer. */
  predicate Advances(a: Action) {
    match a
    case Flight(e) => !e.Arrive? && !e.Rouse? && !e.Tick?
    case StartInspection(_) => false
    case Section(e) => e.Check?
    case Tick => false
    case _ => true
  }

  /** The code's own timeouts, and faults: a permit that is not to be had in time, a
      result that does not come in time, and a statement or command that fails. */
  ghost predicate GivesUp(max: nat, s: System, a: Action) {
    match a
    case Section(e) => e.Check? && P.CanCheck(s.pool, e.c) && P.Decide(max, s.pool, e.c) == P.Expired
    case Flight(e) =>
      e.Look? && e.c in s.flights.pcs && s.flights.pcs[e.c].Waiting?
        && s.flights.pcs[e.c].flight < |s.flights.flights| && s.flights.flights[s.flights.pcs[e.c].flight].result.None?
    case Perform(_, ok) => !ok
    case _ => false
  }

  predicate Unfinished(s: System, c: Caller) {
    (c in s.flights.pcs && !s.flights.pcs[c].Returned?) || c in s.work
  }

  // ----- the measure

  /** No job, and no result, has more than `n` store paths. */
  function PathsOf(job: Job): nat {
    if job.selected.Some? then |StorePaths(job.selected.value.resolution)| else 1
  }

  predicate Short(n: nat, outcome: F.Outcome) { outcome.Ok? ==> |StorePaths(outcome.value)| <= n }

  ghost predicate Bounded(n: nat, f: F.State) {
    && FlightProofs.AllJobs(f, job => PathsOf(job) <= n)
    && FlightProofs.AllOutcomes(f, (job, outcome) => Short(n, outcome))
  }

  function Longest(n: nat): nat { 10 + 5 * n }

  function PhaseRank(phase: P.Phase): nat {
    match phase
    case Asking => 6
    case Awake(_, _) => 5
    case Sleeping => 4
    case Holding => 0
  }

  /** What is left of a program, in steps; a blocked call counts by how far it is. */
  function WorkRank(c: Caller, w: Work, entries: Entries): nat {
    match w.mode
    case Running => if w.at <= |w.program| then 1 + 8 * (|w.program| - w.at) else 0
    case Acquiring =>
      var t := P.Ticket(c, w.at);
      (if w.at < |w.program| then 1 + 8 * (|w.program| - w.at - 1) else 0)
        + if t in entries then PhaseRank(entries[t].phase) else 0
    case Failing => if Scope(w).Some? then 4 else 1
  }

  /** The rank of where a caller stands, with all the work it may still enter. */
  function PcRank(n: nat, f: F.State, pc: F.Pc): nat {
    match pc
    case Selected(_) => 9 + 8 * Longest(n)
    case Waiting(_, flight, wait) =>
      6 + 8 * Longest(n) + if wait.Asleep? || (flight < |f.flights| && f.flights[flight].result.Some?) then 0 else 1
    case Leading(_, _) => 3
    case Registering(_, _, _) => 3
    case Finished(_, _, _) => 2
    case Removing(_, _, _) => 1
    case Returned(_, _) => 0
  }

  function Rank(n: nat, s: System, c: Caller): nat {
    (if c in s.flights.pcs then PcRank(n, s.flights, s.flights.pcs[c]) else 0)
    + if c in s.work then WorkRank(c, s.work[c], s.pool.entries) else 0
  }

  function Callers(s: System): set<Caller> { s.flights.pcs.Keys + s.work.Keys }

  ghost function Sum(cs: set<Caller>, rank: Caller -> nat): nat
    decreases |cs|
  {
    if cs == {} then 0 else var c :| c in cs; rank(c) + Sum(cs - {c}, rank)
  }

  ghost function Measure(n: nat, s: System): nat { Sum(Callers(s), c => Rank(n, s, c)) }

  lemma {:induction false} SumTakeOut(cs: set<Caller>, c: Caller, rank: Caller -> nat)
    requires c in cs
    ensures Sum(cs, rank) == rank(c) + Sum(cs - {c}, rank)
    decreases |cs|
  {
    var d :| d in cs && Sum(cs, rank) == rank(d) + Sum(cs - {d}, rank);
    if d != c {
      SumTakeOut(cs - {d}, c, rank);
      SumTakeOut(cs - {c}, d, rank);
      assert cs - {d} - {c} == cs - {c} - {d};
    }
  }

  lemma {:induction false} SumMonotone(cs: set<Caller>, ds: set<Caller>, rank: Caller -> nat, rank': Caller -> nat)
    requires cs <= ds && forall c :: c in cs ==> rank'(c) <= rank(c)
    ensures Sum(cs, rank') <= Sum(ds, rank)
    decreases |ds|
  {
    if ds != {} {
      var d :| d in ds;
      SumTakeOut(ds, d, rank);
      if d in cs {
        SumTakeOut(cs, d, rank');
        SumMonotone(cs - {d}, ds - {d}, rank, rank');
      } else {
        SumMonotone(cs, ds - {d}, rank, rank');
      }
    }
  }

  lemma SumDrops(cs: set<Caller>, ds: set<Caller>, rank: Caller -> nat, rank': Caller -> nat, c: Caller)
    requires cs <= ds && c in ds
    requires (if c in cs then rank'(c) else 0) < rank(c)
    requires forall d :: d in cs && d != c ==> rank'(d) <= rank(d)
    ensures Sum(cs, rank') < Sum(ds, rank)
  {
    SumTakeOut(ds, c, rank);
    if c in cs {
      SumTakeOut(cs, c, rank');
      SumMonotone(cs - {c}, ds - {c}, rank, rank');
    } else {
      assert cs <= ds - {c};
      SumMonotone(cs, ds - {c}, rank, rank');
    }
  }

  /** One caller drops by more than another rises. */
  lemma SumDropsMore(cs: set<Caller>, rank: Caller -> nat, rank': Caller -> nat, c: Caller, w: Caller)
    requires c in cs && w in cs && c != w
    requires rank'(c) + rank'(w) < rank(c) + rank(w)
    requires forall d :: d in cs && d != c && d != w ==> rank'(d) <= rank(d)
    ensures Sum(cs, rank') < Sum(cs, rank)
  {
    var rest := cs - {c};
    SumTakeOut(cs, c, rank);
    SumTakeOut(cs, c, rank');
    SumTakeOut(rest, w, rank);
    SumTakeOut(rest, w, rank');
    SumMonotone(rest - {w}, rest - {w}, rank, rank');
  }

  /** Publishing wakes followers, but their ranks already count that wake-up. */
  lemma OthersDoNotRise(n: nat, f: F.State, e: F.Event, f': F.State, d: Caller)
    requires F.Linked(f) && !e.Arrive? && !e.Rouse? && !e.Tick? && F.Step(f, e, f')
    requires d in f.pcs && d != e.c
    ensures d in f'.pcs && PcRank(n, f', f'.pcs[d]) <= PcRank(n, f, f.pcs[d])
  {
  }

  lemma ProgramsAreShort(n: nat, job: Job, r: ResolvedRelease)
    requires PathsOf(job) <= n && |StorePaths(r)| <= n
    ensures |LeaderProgram(job)| <= Longest(n) && |FollowerProgram(r)| <= Longest(n)
  {
    assert |ONE_PATH| == 5 && |DEVELOPMENT| == 10;
  }

  function StageRank(c: Caller, pc: F.Pc, entries: Entries): nat {
    if InStage(pc) then WorkRank(c, StageWork(pc), entries) else 0
  }

  /** The caller itself: what it enters next, with all the work ahead of it, is
      worth less than where it stood. */
  lemma ActorDrops(n: nat, f: F.State, e: F.Event, f': F.State, entries: Entries)
    requires n >= 1 && F.Linked(f) && Bounded(n, f) && !e.Arrive? && !e.Rouse? && !e.Tick? && F.Step(f, e, f')
    ensures e.c in f.pcs && e.c in f'.pcs
    ensures PcRank(n, f', f'.pcs[e.c]) + StageRank(e.c, f'.pcs[e.c], entries) < PcRank(n, f, f.pcs[e.c])
  {
    var pc, none := f'.pcs[e.c], ResolvedRelease("", "", None, []);
    if e.Join? && pc.Leading? {
      ProgramsAreShort(n, pc.job, none);
    }
    if e.Look? && pc.Registering? {
      assert Short(n, f.flights[f.pcs[e.c].flight].result.value);
      ProgramsAreShort(n, f.pcs[e.c].job, pc.resolution);
    }
  }

  lemma FlightDecreases(n: nat, s: System, e: F.Event, s': System)
    requires n >= 1 && F.Linked(s.flights) && Bounded(n, s.flights) && Staged(s)
    requires !e.Arrive? && !e.Rouse? && !e.Tick? && F.Step(s.flights, e, s'.flights)
    requires s'.pool == s.pool && s'.work == WorkAfter(s, e, s'.flights)
    ensures Measure(n, s') < Measure(n, s)
  {
    OthersKeepStage(s.flights, e, s'.flights);
    ActorDrops(n, s.flights, e, s'.flights, s.pool.entries);
    assert Callers(s') <= Callers(s);
    forall d | d in Callers(s') && d != e.c
      ensures Rank(n, s', d) <= Rank(n, s, d)
    {
      if d in s.flights.pcs {
        OthersDoNotRise(n, s.flights, e, s'.flights, d);
      }
    }
    SumDrops(Callers(s'), Callers(s), c => Rank(n, s, c), c => Rank(n, s', c), e.c);
  }

  /** A step of one caller's work lowers the sum if its own rank drops by more than
      the one caller it may wake rises. */
  lemma WorkDecreases(n: nat, s: System, s': System, c: Caller, w: Caller)
    requires s'.flights == s.flights && s'.work.Keys == s.work.Keys && c in s.work
    requires forall d :: d in s.work && d != c && d != w ==>
      WorkRank(d, s'.work[d], s'.pool.entries) <= WorkRank(d, s.work[d], s.pool.entries)
    requires WorkRank(c, s'.work[c], s'.pool.entries) < WorkRank(c, s.work[c], s.pool.entries)
    requires w in s.work && w != c ==>
      WorkRank(c, s'.work[c], s'.pool.entries) + WorkRank(w, s'.work[w], s'.pool.entries)
        < WorkRank(c, s.work[c], s.pool.entries) + WorkRank(w, s.work[w], s.pool.entries)
    ensures Measure(n, s') < Measure(n, s)
  {
    assert Callers(s') == Callers(s);
    if w in s.work && w != c {
      SumDropsMore(Callers(s), d => Rank(n, s, d), d => Rank(n, s', d), c, w);
    } else {
      SumDrops(Callers(s'), Callers(s), d => Rank(n, s, d), d => Rank(n, s', d), c);
    }
  }

  /** Another caller's rank is a matter of its own ticket. */
  lemma RankByTicket(d: Caller, w: Work, entries: Entries, entries': Entries)
    requires w.mode == Acquiring ==> P.Ticket(d, w.at) in entries && P.Ticket(d, w.at) in entries'
    requires w.mode == Acquiring ==>
      PhaseRank(entries'[P.Ticket(d, w.at)].phase) <= PhaseRank(entries[P.Ticket(d, w.at)].phase)
    ensures WorkRank(d, w, entries') <= WorkRank(d, w, entries)
  {
  }

  /** A check moves the blocked call nearer to its end, whatever it decides. */
  lemma CheckerDrops(max: nat, p: P.Pool, t: P.Ticket, w: Work, w': Work)
    requires P.CanCheck(p, t) && w.mode == Acquiring && w.at == t.site && GoodWork(w) && Scope(w) == None
    requires w' == match P.Decide(max, p, t)
                   case Acquired => w.(mode := Running, at := w.at + 1)
                   case Blocked => w
                   case Expired => w.(mode := Failing)
    ensures WorkRank(t.caller, w', P.Checked(max, p, t).entries) < WorkRank(t.caller, w, p.entries)
  {
  }

  lemma CheckDecreases(n: nat, max: nat, s: System, t: P.Ticket, s': System)
    requires Coupled(s) && P.CanCheck(s.pool, t) && s'.pool == P.Checked(max, s.pool, t)
    requires s'.flights == s.flights && s'.work == WorkAfterSection(s, P.Check(t), s'.pool)
    ensures Measure(n, s') < Measure(n, s)
  {
    CheckedEntries(max, s.pool, t);
    AskersHoldNothing(s, t.caller);
    forall d | d in s.work && d != t.caller
      ensures WorkRank(d, s'.work[d], s'.pool.entries) <= WorkRank(d, s.work[d], s.pool.entries)
    {
      RankByTicket(d, s.work[d], s.pool.entries, s'.pool.entries);
    }
    CheckerDrops(max, s.pool, t, s.work[t.caller], s'.work[t.caller]);
    WorkDecreases(n, s, s', t.caller, t.caller);
  }

  lemma PerformDecreases(n: nat, s: System, c: Caller, ok: bool, s': System)
    requires c in s.work && (AtOp(s.work[c], Local) || AtOp(s.work[c], Command))
    requires s' == s.(work := s.work[c := Performed(s.work[c], ok)])
    ensures Measure(n, s') < Measure(n, s)
  {
    WorkDecreases(n, s, s', c, c);
  }

  lemma AskDecreases(n: nat, max: nat, s: System, c: Caller, deadline: nat, s': System)
    requires Coupled(s) && c in s.work && AtOp(s.work[c], Acquire) && s'.flights == s.flights
    requires P.Step(max, s.pool, P.Enter(P.Ticket(c, s.work[c].at), deadline), s'.pool)
    requires s'.work == s.work[c := s.work[c].(mode := Acquiring)]
    ensures Measure(n, s') < Measure(n, s)
  {
    forall d | d in s.work && d != c
      ensures WorkRank(d, s'.work[d], s'.pool.entries) <= WorkRank(d, s.work[d], s.pool.entries)
    {
      RankByTicket(d, s.work[d], s.pool.entries, s'.pool.entries);
    }
    WorkDecreases(n, s, s', c, c);
  }

  lemma DroppedRanks(max: nat, p: P.Pool, t: P.Ticket, woken: Option<P.Ticket>, p': P.Pool, u: P.Ticket)
    requires P.Step(max, p, P.Event.Drop(t, woken), p') && u in p.entries && u != t
    ensures u in p'.entries
    ensures PhaseRank(p'.entries[u].phase) <= PhaseRank(p.entries[u].phase) + if woken == Some(u) then 1 else 0
  {
  }

  /** The caller moves on by a whole statement, or is done failing. */
  lemma DropperDrops(c: Caller, w: Work, w': Work, entries: Entries, entries': Entries)
    requires GoodWork(w) && Scope(w).Some? && w.mode != Acquiring
    requires w' == w.(at := w'.at) && w'.at <= |w.program| && Scope(w') == None && (w.mode == Running ==> w.at < w'.at)
    ensures WorkRank(c, w', entries') + 2 <= WorkRank(c, w, entries)
  {
  }

  /** A permit dropped: whoever is woken rises by one, the dropper falls by more. */
  lemma DropDecreases(n: nat, max: nat, s: System, c: Caller, woken: Option<P.Ticket>, w': Work, s': System)
    requires Coupled(s) && c in s.work && Scope(s.work[c]).Some? && s.work[c].mode != Acquiring
    requires P.Step(max, s.pool, P.Event.Drop(P.Ticket(c, Scope(s.work[c]).value), woken), s'.pool)
    requires s'.flights == s.flights && s'.work == s.work[c := w']
    requires w' == s.work[c].(at := w'.at) && w'.at <= |w'.program| && Scope(w') == None
    requires w'.mode == Running ==> s.work[c].at < w'.at
    ensures Measure(n, s') < Measure(n, s)
  {
    var w := if woken.Some? then woken.value.caller else c;
    var t := P.Ticket(c, Scope(s.work[c]).value);
    forall d | d in s.work && d != c
      ensures WorkRank(d, s'.work[d], s'.pool.entries)
           <= WorkRank(d, s.work[d], s.pool.entries) + if d == w then 1 else 0
    {
      if s.work[d].mode == Acquiring {
        DroppedRanks(max, s.pool, t, woken, s'.pool, P.Ticket(d, s.work[d].at));
      }
    }
    DropperDrops(c, s.work[c], w', s.pool.entries, s'.pool.entries);
    WorkDecreases(n, s, s', c, w);
  }

  lemma EndInspectionDecreases(n: nat, s: System, c: Caller, s': System)
    requires c in s.work && c !in s.flights.pcs && s' == s.(work := s.work - {c})
    requires StageOver(s.work[c], true) || StageOver(s.work[c], false)
    ensures Measure(n, s') < Measure(n, s)
  {
    assert Callers(s') == Callers(s) - {c};
    SumDrops(Callers(s'), Callers(s), d => Rank(n, s, d), d => Rank(n, s', d), c);
  }

  lemma CloseDecreases(n: nat, max: nat, s: System, c: Caller, woken: Option<P.Ticket>, s': System)
    requires Coupled(s) && c in s.work && AtOp(s.work[c], Op.Drop) && Scope(s.work[c]).Some? && s'.flights == s.flights
    requires P.Step(max, s.pool, P.Event.Drop(P.Ticket(c, Scope(s.work[c]).value), woken), s'.pool)
    requires s'.work == s.work[c := s.work[c].(at := s.work[c].at + 1)]
    ensures Measure(n, s') < Measure(n, s)
  {
    ScopeAfterClose(s.work[c]);
    DropDecreases(n, max, s, c, woken, s'.work[c], s');
  }

  lemma UnwindDecreases(n: nat, max: nat, s: System, c: Caller, woken: Option<P.Ticket>, s': System)
    requires Coupled(s) && c in s.work && s.work[c].mode == Failing && Scope(s.work[c]).Some? && s'.flights == s.flights
    requires P.Step(max, s.pool, P.Event.Drop(P.Ticket(c, Scope(s.work[c]).value), woken), s'.pool)
    requires s'.work == s.work[c := s.work[c].(at := Scope(s.work[c]).value)]
    ensures Measure(n, s') < Measure(n, s)
  {
    ScopeAfterClose(s.work[c]);
    DropDecreases(n, max, s, c, woken, s'.work[c], s');
  }

  lemma DropStepsDecrease(n: nat, max: nat, s: System, a: Action, s': System)
    requires F.WellLinked(F.SharedOf(s.flights)) && Coupled(s) && Step(max, s, a, s') && (a.Close? || a.Unwind?)
    ensures Measure(n, s') < Measure(n, s)
  {
    if a.Close? {
      CloseDecreases(n, max, s, a.c, a.woken, s');
    } else {
      UnwindDecreases(n, max, s, a.c, a.woken, s');
    }
  }

  /** Every advance lowers the measure. */
  lemma AdvancesDecrease(n: nat, max: nat, s: System, a: Action, s': System)
    requires n >= 1 && F.Linked(s.flights) && Coupled(s) && Bounded(n, s.flights) && Step(max, s, a, s') && Advances(a)
    ensures Measure(n, s') < Measure(n, s)
  {
    match a
    case Flight(e) => FlightDecreases(n, s, e, s');
    case EndInspection(c) => EndInspectionDecreases(n, s, c, s');
    case Ask(c, deadline) => AskDecreases(n, max, s, c, deadline, s');
    case Section(e) => CheckDecreases(n, max, s, e.c, s');
    case Perform(c, ok) => PerformDecreases(n, s, c, ok, s');
    case Close(_, _) => DropStepsDecrease(n, max, s, a, s');
    case Unwind(_, _) => DropStepsDecrease(n, max, s, a, s');
  }

  // ----- something can always advance

  ghost predicate CanProgress(node: Node, max: nat, s: System)
    requires F.WellLinked(F.SharedOf(s.flights))
  {
    exists a, s' :: Advances(a) && !GivesUp(max, s, a) && Step(max, s, a, s') && Carries(node, s, a)
  }

  lemma ShowProgress(node: Node, max: nat, s: System, a: Action, s': System)
    requires F.WellLinked(F.SharedOf(s.flights)) && Advances(a) && !GivesUp(max, s, a)
    requires Step(max, s, a, s') && Carries(node, s, a)
    ensures CanProgress(node, max, s)
  {
  }

  lemma ShowOwn(node: Node, max: nat, s: System, a: Action, s': System)
    requires F.WellLinked(F.SharedOf(s.flights)) && Advances(a) && !GivesUp(max, s, a) && !a.Flight?
    requires Step(max, s, a, s')
    ensures CanProgress(node, max, s)
  {
    ShowProgress(node, max, s, a, s');
  }

  /** Dropping a permit notifies some sleeper if there is one. */
  lemma DropIsOpen(max: nat, p: P.Pool, t: P.Ticket) returns (woken: Option<P.Ticket>)
    requires t in P.Holders(p)
    ensures woken.Some? ==> woken.value in p.entries && woken.value != t
    ensures P.Step(max, p, P.Event.Drop(t, woken), P.Dropped(p, t, woken))
  {
    if P.Sleepers(p) == {} {
      woken := None;
    } else {
      var w :| w in P.Sleepers(p);
      woken := Some(w);
    }
  }

  /** What the moves of one caller's program need. */
  ghost predicate Pooled(max: nat, s: System) {
    F.WellLinked(F.SharedOf(s.flights)) && P.Inv(max, s.pool) && Coupled(s)
  }

  lemma PerformMoves(node: Node, max: nat, s: System, c: Caller)
    requires Pooled(max, s) && c in s.work && (AtOp(s.work[c], Local) || AtOp(s.work[c], Command))
    ensures CanProgress(node, max, s)
  {
    ShowOwn(node, max, s, Perform(c, true), s.(work := s.work[c := s.work[c].(at := s.work[c].at + 1)]));
  }

  lemma DropInScope(s: System, c: Caller)
    requires Coupled(s) && c in s.work && AtOp(s.work[c], Op.Drop)
    ensures Scope(s.work[c]).Some? && P.Ticket(c, Scope(s.work[c]).value) in P.Holders(s.pool)
  {
    assert InScope(s.work[c].program, s.work[c].at);
    assert Held(s.pool.entries, P.Ticket(c, Scope(s.work[c]).value));
  }

  lemma CloseIsShown(node: Node, max: nat, s: System, c: Caller, woken: Option<P.Ticket>, pool: P.Pool)
    requires F.WellLinked(F.SharedOf(s.flights)) && c in s.work && AtOp(s.work[c], Op.Drop) && Scope(s.work[c]).Some?
    requires P.Step(max, s.pool, P.Event.Drop(P.Ticket(c, Scope(s.work[c]).value), woken), pool)
    ensures CanProgress(node, max, s)
  {
    ShowOwn(node, max, s, Close(c, woken), s.(pool := pool, work := s.work[c := s.work[c].(at := s.work[c].at + 1)]));
  }

  lemma CloseMoves(node: Node, max: nat, s: System, c: Caller)
    requires Pooled(max, s) && c in s.work && AtOp(s.work[c], Op.Drop)
    ensures CanProgress(node, max, s)
  {
    DropInScope(s, c);
    var t := P.Ticket(c, Scope(s.work[c]).value);
    var woken := DropIsOpen(max, s.pool, t);
    CloseIsShown(node, max, s, c, woken, P.Dropped(s.pool, t, woken));
  }

  lemma UnwindMoves(node: Node, max: nat, s: System, c: Caller)
    requires Pooled(max, s) && c in s.work && s.work[c].mode == Failing && Scope(s.work[c]).Some?
    ensures CanProgress(node, max, s)
  {
    var t := P.Ticket(c, Scope(s.work[c]).value);
    var woken := DropIsOpen(max, s.pool, t);
    var s' := s.(pool := P.Dropped(s.pool, t, woken), work := s.work[c := s.work[c].(at := t.site)]);
    ShowOwn(node, max, s, Unwind(c, woken), s');
  }

  /** Whoever holds a permit can move. This is where permits must not nest: a holder
      at an `acquire_permit` might wait for another holder like itself. */
  lemma HolderMoves(node: Node, max: nat, s: System, t: P.Ticket)
    requires Pooled(max, s) && t in P.Holders(s.pool)
    ensures CanProgress(node, max, s)
  {
    var c := t.caller;
    var w := s.work[c];
    assert Held(s.pool.entries, t);
    assert Scope(w) == Some(t.site);
    if AtOp(w, Acquire) || w.mode == Acquiring {
      AskersHoldNothing(s, c);
    } else if w.mode == Failing {
      UnwindMoves(node, max, s, c);
    } else if AtOp(w, Op.Drop) {
      CloseMoves(node, max, s, c);
    } else {
      assert w.at < |w.program|;
      PerformMoves(node, max, s, c);
    }
  }

  /** A check that would give up found the pool full, so a holder can move instead. */
  lemma CheckMoves(node: Node, max: nat, s: System, t: P.Ticket)
    requires max >= 1 && Pooled(max, s) && P.CanCheck(s.pool, t)
    ensures CanProgress(node, max, s)
  {
    if P.Decide(max, s.pool, t) == P.Expired {
      P.FailsExactlyLateAndFull(max, s.pool, t);
      var holder :| holder in P.Holders(s.pool);
      HolderMoves(node, max, s, holder);
    } else {
      var pool := P.Checked(max, s.pool, t);
      ShowOwn(node, max, s, Section(P.Check(t)), s.(pool := pool, work := WorkAfterSection(s, P.Check(t), pool)));
    }
  }

  lemma BlockedMoves(node: Node, max: nat, s: System, c: Caller)
    requires max >= 1 && Pooled(max, s) && c in s.work && s.work[c].mode == Acquiring
    ensures CanProgress(node, max, s)
  {
    var t := P.Ticket(c, s.work[c].at);
    assert t in s.pool.entries && !Held(s.pool.entries, t);
    if s.pool.entries[t].phase.Sleeping? {
      assert t in P.Sleepers(s.pool);
      var u := P.SleepersAreCovered(max, s.pool);
      if u in P.Holders(s.pool) {
        HolderMoves(node, max, s, u);
      } else {
        CheckMoves(node, max, s, u);
      }
    } else {
      CheckMoves(node, max, s, t);
    }
  }

  lemma AskMoves(node: Node, max: nat, s: System, c: Caller)
    requires Pooled(max, s) && c in s.work && AtOp(s.work[c], Acquire)
    ensures CanProgress(node, max, s)
  {
    AskersHoldNothing(s, c);
    var t := P.Ticket(c, s.work[c].at);
    var deadline := if c in s.flights.pcs then s.flights.pcs[c].job.deadline else 0;
    var pool := s.pool.(entries := s.pool.entries[t := P.Entry(P.Asking, deadline)]);
    var s' := s.(pool := pool, work := s.work[c := s.work[c].(mode := Acquiring)]);
    ShowOwn(node, max, s, Ask(c, deadline), s');
  }

  /** A flight step in which nobody gives up can be taken as it stands. */
  lemma FlightMoves(node: Node, max: nat, s: System, e: F.Event, f': F.State)
    requires Inv(max, s) && F.Step(s.flights, e, f') && C.Allowed(node, s.flights, e)
    requires !e.Arrive? && !e.Rouse? && !e.Tick?
    requires e.Look? ==> s.flights.flights[s.flights.pcs[e.c].flight].result.Some?
    requires e.Publish? || e.Registered? ==> e.c in s.work && StageOver(s.work[e.c], e.outcome.Ok?)
    ensures CanProgress(node, max, s)
  {
    ShowProgress(node, max, s, Flight(e), s.(flights := f', work := WorkAfter(s, e, f')));
  }

  /** Both a success and a failure of a materialization are possible outcomes. */
  lemma SomeOutcome(node: Node, job: Job, ok: bool) returns (outcome: F.Outcome)
    requires Admitted(node, job)
    ensures outcome.Ok? == ok && C.Materialized(job, outcome)
  {
    AdmittedKeyIsFaithful(node, job);
    if ok {
      var path := SomeOutputParses();
      WillingSucceeds(job, path);
      outcome := Ok(Produce(job, CLEAN, Willing(job, path)).0.value);
      assert C.Reports(outcome, Produce(job, CLEAN, Willing(job, path)).0);
    } else {
      UnwillingFails(job);
      outcome := Err(ResolutionError(Materialization, true));
      assert C.Reports(outcome, Produce(job, CLEAN, Unwilling(job)).0);
    }
  }

  lemma StageOverMoves(node: Node, max: nat, s: System, c: Caller, ok: bool)
    requires Inv(max, s) && C.JobsAdmitted(node, s.flights)
    requires c in s.work && c in s.flights.pcs && StageOver(s.work[c], ok)
    ensures CanProgress(node, max, s)
  {
    var f := s.flights;
    var pc := f.pcs[c];
    if pc.Leading? {
      assert Admitted(node, pc.job);
      var outcome := SomeOutcome(node, pc.job, ok);
      var f' := F.With(f.(pcs := F.Notify(f.pcs, pc.flight)), F.PublishShared(F.SharedOf(f), pc.flight, outcome), c,
                       F.Finished(pc.job, pc.flight, outcome));
      FlightMoves(node, max, s, F.Publish(c, outcome), f');
    } else {
      var outcome: F.Outcome := if ok then Ok(pc.resolution) else Err(ResolutionError(RootRegistration, true));
      var f' := f.(pcs := f.pcs[c := F.Finished(pc.job, pc.flight, outcome)]);
      FlightMoves(node, max, s, F.Registered(c, outcome), f');
    }
  }

  lemma WorkMoves(node: Node, max: nat, s: System, c: Caller)
    requires max >= 1 && Inv(max, s) && C.JobsAdmitted(node, s.flights) && c in s.work
    ensures CanProgress(node, max, s)
  {
    var w := s.work[c];
    if w.mode == Acquiring {
      BlockedMoves(node, max, s, c);
    } else if w.mode == Failing && Scope(w).Some? {
      UnwindMoves(node, max, s, c);
    } else if w.mode == Failing || w.at == |w.program| {
      if c in s.flights.pcs {
        StageOverMoves(node, max, s, c, w.mode == Running);
      } else {
        ShowOwn(node, max, s, EndInspection(c), s.(work := s.work - {c}));
      }
    } else {
      match w.program[w.at]
      case Acquire => AskMoves(node, max, s, c);
      case Drop => CloseMoves(node, max, s, c);
      case _ => PerformMoves(node, max, s, c);
    }
  }

  lemma JoinMoves(node: Node, max: nat, s: System, c: Caller)
    requires Inv(max, s) && c in s.flights.pcs && s.flights.pcs[c].Selected?
    ensures CanProgress(node, max, s)
  {
    var f := s.flights;
    var job := f.pcs[c].job;
    var (t, i, leader) := F.JoinShared(F.SharedOf(f), c, job);
    var pc := if leader then F.Leading(job, i) else F.Waiting(job, i, F.Checking);
    FlightMoves(node, max, s, F.Join(c), F.With(f, t, c, pc));
  }

  lemma ReleaseMoves(node: Node, max: nat, s: System, c: Caller)
    requires Inv(max, s) && c in s.flights.pcs && (s.flights.pcs[c].Finished? || s.flights.pcs[c].Removing?)
    ensures CanProgress(node, max, s)
  {
    var f := s.flights;
    match f.pcs[c]
    case Finished(job, i, outcome) =>
      var t := F.LeaveShared(F.SharedOf(f), i);
      FlightMoves(node, max, s, F.Leave(c), F.With(f, t, c,
        if t.flights[i].callers == 0 then F.Removing(job, i, outcome) else F.Returned(Some(job), outcome)));
    case Removing(job, i, outcome) =>
      FlightMoves(node, max, s, F.Remove(c),
        F.With(f, F.RemoveShared(F.SharedOf(f), job.key, i), c, F.Returned(Some(job), outcome)));
  }

  /** Deadlock freedom: while a request is unfinished, some step is enabled that is
      neither a timeout nor a fault, and waits for no timer and no newcomer. */
  lemma NeverStuck(node: Node, max: nat, s: System, c: Caller)
    requires max >= 1 && Inv(max, s) && C.JobsAdmitted(node, s.flights) && Unfinished(s, c)
    ensures CanProgress(node, max, s)
  {
    var f := s.flights;
    if c in s.work {
      WorkMoves(node, max, s, c);
    } else if f.pcs[c].Selected? {
      JoinMoves(node, max, s, c);
    } else if f.pcs[c].Waiting? {
      var i := f.pcs[c].flight;
      if f.flights[i].result.None? {
        // the leader is still at work, even if this follower's own time is up
        WorkMoves(node, max, s, f.flights[i].leader);
      } else {
        FlightMoves(node, max, s, F.Look(c), f.(pcs := f.pcs[c := F.Looked(f, f.pcs[c])]));
      }
    } else {
      ReleaseMoves(node, max, s, c);
    }
  }

  /** So in every reachable state. */
  lemma RunsNeverStick(node: Node, max: nat, states: seq<System>, actions: seq<Action>, i: nat, c: Caller)
    requires max >= 1 && Run(max, states, actions) && AllCarry(node, states, actions) && i < |states|
    requires Unfinished(states[i], c)
    ensures F.WellLinked(F.SharedOf(states[i].flights)) && CanProgress(node, max, states[i])
  {
    RunsKeepInv(max, states, actions, i);
    RunsStayAdmitted(node, max, states, actions, i);
    NeverStuck(node, max, states[i], c);
  }

  // ----- everybody returns

  ghost predicate Schedule(max: nat, states: seq<System>, actions: seq<Action>) {
    && |states| == |actions| + 1
    && forall i :: 0 <= i < |actions| ==>
         F.WellLinked(F.SharedOf(states[i].flights)) && Step(max, states[i], actions[i], states[i + 1])
  }

  lemma AdvancesStayBounded(n: nat, max: nat, s: System, a: Action, s': System)
    requires n >= 1 && F.Inv(s.flights) && Bounded(n, s.flights) && Step(max, s, a, s') && Advances(a)
    requires a.Flight? && a.e.Publish? ==> Short(n, a.e.outcome)
    ensures Bounded(n, s'.flights)
  {
    StepOfFlights(max, s, a, s');
    if a.Flight? {
      FlightProofs.StepKeepsJobs(s.flights, a.e, s'.flights, job => PathsOf(job) <= n);
      FlightProofs.StepKeepsOutcomes(s.flights, a.e, s'.flights, (job, outcome) => Short(n, outcome));
    }
  }

  /** A published resolution has as many paths as the job's own. */
  lemma PublicationIsShort(node: Node, n: nat, s: System, a: Action)
    requires n >= 1 && Bounded(n, s.flights) && C.JobsAdmitted(node, s.flights) && Carries(node, s, a)
    ensures a.Flight? && a.e.Publish? ==> Short(n, a.e.outcome)
  {
    if a.Flight? && a.e.Publish? && a.e.outcome.Ok? {
      var job := s.flights.pcs[a.e.c].job;
      assert Admitted(node, job);
      AdmittedKeyIsFaithful(node, job);
      C.MaterializedFits(job, a.e.outcome);
      assert PathsOf(job) <= n;
    }
  }

  /** One advance lowers the measure and keeps everything that is needed for the next. */
  lemma AdvanceOnce(node: Node, n: nat, max: nat, s: System, a: Action, s': System)
    requires n >= 1 && Inv(max, s) && C.JobsAdmitted(node, s.flights) && Bounded(n, s.flights)
    requires Step(max, s, a, s') && Carries(node, s, a) && Advances(a)
    ensures Inv(max, s') && C.JobsAdmitted(node, s'.flights) && Bounded(n, s'.flights)
    ensures Measure(n, s') < Measure(n, s)
  {
    PublicationIsShort(node, n, s, a);
    AdvancesStayBounded(n, max, s, a, s');
    StepKeepsAdmitted(node, max, s, a, s');
    StepPreserves(max, s, a, s');
    AdvancesDecrease(n, max, s, a, s');
  }

  lemma {:induction false} AdvancesFrom(node: Node, n: nat, max: nat, states: seq<System>, actions: seq<Action>, k: nat)
    requires n >= 1 && Schedule(max, states, actions) && AllCarry(node, states, actions) && k < |states|
    requires forall i :: 0 <= i < |actions| ==> Advances(actions[i])
    requires Inv(max, states[k]) && C.JobsAdmitted(node, states[k].flights) && Bounded(n, states[k].flights)
    ensures |actions| - k <= Measure(n, states[k])
    decreases |actions| - k
  {
    if k < |actions| {
      AdvanceOnce(node, n, max, states[k], actions[k], states[k + 1]);
      AdvancesFrom(node, n, max, states, actions, k + 1);
    }
  }

  /** No sequence of advances is longer than the measure of its first state, for
      any `n` that bounds the store paths of the jobs and results in it. */
  lemma AdvancesAreBounded(node: Node, n: nat, max: nat, states: seq<System>, actions: seq<Action>)
    requires n >= 1 && Schedule(max, states, actions) && AllCarry(node, states, actions)
    requires forall i :: 0 <= i < |actions| ==> Advances(actions[i])
    requires Inv(max, states[0]) && C.JobsAdmitted(node, states[0].flights) && Bounded(n, states[0].flights)
    ensures |actions| <= Measure(n, states[0])
  {
    AdvancesFrom(node, n, max, states, actions, 0);
  }

  /** A state without progress has finished every request. With `AdvancesAreBounded`,
      every scheduler that keeps taking advances brings everybody home. */
  lemma StoppedMeansFinished(node: Node, max: nat, s: System)
    requires max >= 1 && Inv(max, s) && C.JobsAdmitted(node, s.flights) && !CanProgress(node, max, s)
    ensures forall c :: !Unfinished(s, c)
    ensures s.flights.table == map[] && s.pool.active == 0
  {
    forall c
      ensures !Unfinished(s, c)
    {
      if Unfinished(s, c) {
        NeverStuck(node, max, s, c);
      }
    }
    if s.flights.table != map[] {
      var k :| k in s.flights.table;
      FlightProofs.MappedMeansBusy(s.flights, k);
      var c :| c in s.flights.pcs && F.OnFlight(s.flights.pcs[c]) && s.flights.pcs[c].job.key == k;
      assert Unfinished(s, c);
    }
    if s.pool.entries != map[] {
      var t :| t in s.pool.entries;
      assert Unfinished(s, t.caller);
    }
    assert P.Holders(s.pool) == {};
  }

  // ----- such a bound always exists

  predicate AtMost(ns: set<nat>, n: nat) { forall m :: m in ns ==> m <= n }

  lemma {:induction false} SomeBound(ns: set<nat>) returns (n: nat)
    ensures n >= 1 && AtMost(ns, n)
    decreases |ns|
  {
    if ns == {} {
      n := 1;
    } else {
      var m :| m in ns;
      var rest := SomeBound(ns - {m});
      n := if m > rest then m else rest;
      assert forall k :: k in ns ==> k == m || k in ns - {m};
    }
  }

  function PathsIn(outcome: F.Outcome): set<nat> {
    if outcome.Ok? then {|StorePaths(outcome.value)|} else {}
  }

  function PathsOfJob(pc: F.Pc): set<nat> {
    match pc
    case Returned(own, _) => if own.Some? then {PathsOf(own.value)} else {}
    case _ => {PathsOf(pc.job)}
  }

  function PathsOfResult(pc: F.Pc): set<nat> {
    match pc
    case Registering(_, _, r) => {|StorePaths(r)|}
    case Finished(_, _, outcome) => PathsIn(outcome)
    case Removing(_, _, outcome) => PathsIn(outcome)
    case Returned(_, outcome) => PathsIn(outcome)
    case _ => {}
  }

  function PathsOfFlight(f: F.Flight): set<nat> {
    {PathsOf(f.job)} + if f.result.Some? then PathsIn(f.result.value) else {}
  }

  lemma CallerFits(n: nat, pc: F.Pc)
    requires AtMost(PathsOfJob(pc), n) && AtMost(PathsOfResult(pc), n)
    requires pc.Returned? && pc.own.None? ==> pc.outcome.Err?
    ensures FlightProofs.PcFits(pc, (job, outcome) => Short(n, outcome))
    ensures !pc.Returned? ==> PathsOf(pc.job) <= n
    ensures pc.Returned? && pc.own.Some? ==> PathsOf(pc.own.value) <= n
  {
    if !pc.Returned? {
      assert PathsOf(pc.job) in PathsOfJob(pc);
    } else if pc.own.Some? {
      assert PathsOf(pc.own.value) in PathsOfJob(pc);
    }
    if pc.Registering? {
      assert |StorePaths(pc.resolution)| in PathsOfResult(pc);
    } else if pc.Finished? || pc.Removing? || pc.Returned? {
      assert pc.outcome.Ok? ==> |StorePaths(pc.outcome.value)| in PathsOfResult(pc);
    }
  }

  lemma FlightFits(n: nat, f: F.Flight)
    requires AtMost(PathsOfFlight(f), n)
    ensures PathsOf(f.job) <= n && (f.result.Some? ==> Short(n, f.result.value))
  {
    assert PathsOf(f.job) in PathsOfFlight(f);
    assert f.result.Some? && f.result.value.Ok? ==> |StorePaths(f.result.value.value)| in PathsOfFlight(f);
  }

  /** Every state has its bound: its jobs and results are finitely many. */
  lemma BoundExists(f: F.State) returns (n: nat)
    requires forall c :: c in f.pcs && f.pcs[c].Returned? && f.pcs[c].own.None? ==> f.pcs[c].outcome.Err?
    ensures n >= 1 && Bounded(n, f)
  {
    var ofCallers := set c, m | c in f.pcs && m in PathsOfJob(f.pcs[c]) + PathsOfResult(f.pcs[c]) :: m;
    var ofFlights := set i, m | 0 <= i < |f.flights| && m in PathsOfFlight(f.flights[i]) :: m;
    n := SomeBound(ofCallers + ofFlights);
    forall c | c in f.pcs
      ensures FlightProofs.PcFits(f.pcs[c], (job, outcome) => Short(n, outcome))
      ensures !f.pcs[c].Returned? ==> PathsOf(f.pcs[c].job) <= n
      ensures f.pcs[c].Returned? && f.pcs[c].own.Some? ==> PathsOf(f.pcs[c].own.value) <= n
    {
      var here := PathsOfJob(f.pcs[c]) + PathsOfResult(f.pcs[c]);
      assert forall m :: m in here ==> m in ofCallers + ofFlights;
      assert AtMost(here, n);
      CallerFits(n, f.pcs[c]);
    }
    forall i | 0 <= i < |f.flights|
      ensures PathsOf(f.flights[i].job) <= n
      ensures f.flights[i].result.Some? ==> Short(n, f.flights[i].result.value)
    {
      assert forall m :: m in PathsOfFlight(f.flights[i]) ==> m in ofCallers + ofFlights;
      FlightFits(n, f.flights[i]);
    }
  }
}
