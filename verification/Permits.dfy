/**
 The counting semaphore that bounds Nix operations: `acquire_permit` and
 `Permit::drop`, one step for every time the `permits` mutex is held, plus the
 steps of the condition variable and of the clock.

 A thread that wakes re-locks the mutex, tests its timer flag and re-tests the
 loop guard without releasing it, so all of that is one `Check` step.
 */
module Permits {
  import opened Wrappers

  /** One call of `acquire_permit`: the caller, and the place in its code. */
  datatype Ticket = Ticket(caller: nat, site: nat)

  /** Where a call stands. Calls not made, and permits dropped, have no entry. */
  datatype Phase =
    | Asking                                    // about to take the mutex for the first time
    | Sleeping                                  // inside `wait_timeout`, on the wait queue
    | Awake(notified: bool, timedOut: bool)     // off the wait queue, not yet back in the mutex
    | Holding                                   // owns a `Permit`

  datatype Entry = Entry(phase: Phase, deadline: nat)

  datatype Pool = Pool(now: nat, active: int, entries: map<Ticket, Entry>)

  datatype Verdict = Acquired | Blocked | Expired

  datatype Event =
    | Enter(c: Ticket, deadline: nat)
    | Check(c: Ticket)
    | Wake(c: Ticket, timedOut: bool)           // the timer, or a spurious wake-up
    | LateTimer(c: Ticket)                      // the timer fires after the notification arrived
    | Drop(c: Ticket, woken: Option<Ticket>)    // `notify_one` picks any sleeper
    | Tick

  function In(p: Pool, phase: Phase): (s: set<Ticket>)
    ensures forall c :: c in s <==> c in p.entries && p.entries[c].phase == phase
  {
    set c | c in p.entries && p.entries[c].phase == phase
  }

  function Holders(p: Pool): set<Ticket> { In(p, Holding) }

  function Sleepers(p: Pool): set<Ticket> { In(p, Sleeping) }

  /** Woken by a notification and not yet run. */
  function Notified(p: Pool): (s: set<Ticket>)
    ensures forall c :: c in s <==>
      c in p.entries && p.entries[c].phase.Awake? && p.entries[c].phase.notified
  {
    set c | c in p.entries && p.entries[c].phase.Awake? && p.entries[c].phase.notified
  }

  predicate CanCheck(p: Pool, c: Ticket) {
    c in p.entries && (p.entries[c].phase.Asking? || p.entries[c].phase.Awake?)
  }

  /** What the section under the mutex decides for `c`. */
  function Decide(max: nat, p: Pool, c: Ticket): Verdict
    requires CanCheck(p, c)
  {
    var e := p.entries[c];
    if e.phase.Awake? && e.phase.timedOut && p.active >= max then Expired
    else if p.active < max then Acquired
    else if p.now >= e.deadline then Expired
    else Blocked
  }

  function Move(p: Pool, c: Ticket, phase: Phase): Pool
    requires c in p.entries
  {
    p.(entries := p.entries[c := p.entries[c].(phase := phase)])
  }

  function Checked(max: nat, p: Pool, c: Ticket): Pool
    requires CanCheck(p, c)
  {
    match Decide(max, p, c)
    case Acquired => Move(p, c, Holding).(active := p.active + 1)
    case Blocked => Move(p, c, Sleeping)
    case Expired => p.(entries := p.entries - {c})
  }

  /** `Permit::drop`. That the subtraction never goes below zero is a theorem. */
  function Dropped(p: Pool, c: Ticket, woken: Option<Ticket>): Pool
    requires woken.Some? ==> woken.value in p.entries && woken.value != c
  {
    var q := p.(active := p.active - 1, entries := p.entries - {c});
    if woken.Some? then Move(q, woken.value, Awake(true, false)) else q
  }

  ghost predicate Step(max: nat, p: Pool, e: Event, p': Pool) {
    match e
    case Enter(c, deadline) =>
      && c !in p.entries
      && p' == p.(entries := p.entries[c := Entry(Asking, deadline)])
    case Check(c) =>
      && CanCheck(p, c)
      && p' == Checked(max, p, c)
    case Wake(c, timedOut) =>
      && c in Sleepers(p)
      && (timedOut ==> p.now >= p.entries[c].deadline)
      && p' == Move(p, c, Awake(false, timedOut))
    case LateTimer(c) =>
      && c in Notified(p)
      && p.now >= p.entries[c].deadline
      && p' == Move(p, c, Awake(true, true))
    case Drop(c, woken) =>
      && c in Holders(p)
      && (woken.None? <==> Sleepers(p) == {})
      && (woken.Some? ==> woken.value in Sleepers(p))
      && p' == Dropped(p, c, woken)
    case Tick => p' == p.(now := p.now + 1)
  }

  ghost predicate Init(p: Pool) {
    p.active == 0 && p.entries == map[]
  }

  ghost predicate Run(max: nat, states: seq<Pool>, events: seq<Event>) {
    && |states| == |events| + 1
    && Init(states[0])
    && forall i :: 0 <= i < |events| ==> Step(max, states[i], events[i], states[i + 1])
  }

  /** `active` counts the live permits exactly and never passes the limit. */
  ghost predicate Exact(max: nat, p: Pool) {
    p.active == |Holders(p)| && p.active <= max
  }

  /** While anyone sleeps, the free permits are covered by wake-ups in flight. */
  ghost predicate NoLostWakeup(max: nat, p: Pool) {
    Sleepers(p) != {} ==> |Notified(p)| >= max - p.active
  }

  ghost predicate TimersHonest(p: Pool) {
    forall c :: c in p.entries && p.entries[c].phase.Awake? && p.entries[c].phase.timedOut
      ==> p.now >= p.entries[c].deadline
  }

  ghost predicate Inv(max: nat, p: Pool) {
    Exact(max, p) && NoLostWakeup(max, p) && TimersHonest(p)
  }

  lemma SubsetCardinality<T>(a: set<T>, b: set<T>)
    requires a <= b
    ensures |a| <= |b|
  {
    assert b == a + (b - a);
  }

  /** Who moves where when a permit is taken. */
  lemma AcquiredSets(max: nat, p: Pool, c: Ticket)
    requires CanCheck(p, c) && Decide(max, p, c) == Acquired
    ensures c !in Holders(p) && Holders(Checked(max, p, c)) == Holders(p) + {c}
    ensures Sleepers(Checked(max, p, c)) == Sleepers(p)
    ensures Notified(Checked(max, p, c)) == Notified(p) - {c}
  {
  }

  lemma AcquireIsExact(max: nat, p: Pool, c: Ticket)
    requires Inv(max, p) && CanCheck(p, c) && Decide(max, p, c) == Acquired
    ensures Inv(max, Checked(max, p, c))
  {
    AcquiredSets(max, p, c);
  }

  lemma ExpiryIsExact(max: nat, p: Pool, c: Ticket)
    requires Inv(max, p) && CanCheck(p, c) && Decide(max, p, c) == Expired
    ensures Inv(max, Checked(max, p, c))
  {
    assert Holders(Checked(max, p, c)) == Holders(p);
  }

  lemma CheckPreserves(max: nat, p: Pool, c: Ticket)
    requires Inv(max, p) && CanCheck(p, c)
    ensures Inv(max, Checked(max, p, c))
  {
    match Decide(max, p, c)
    case Acquired => AcquireIsExact(max, p, c);
    case Blocked => BlockedIsFull(max, p, c);
    case Expired => ExpiryIsExact(max, p, c);
  }

  /** Whoever goes to sleep found the pool full, so no wake-up is owed. */
  lemma BlockedIsFull(max: nat, p: Pool, c: Ticket)
    requires Inv(max, p) && CanCheck(p, c) && Decide(max, p, c) == Blocked
    ensures Inv(max, Checked(max, p, c)) && p.active == max
  {
    assert Holders(Checked(max, p, c)) == Holders(p);
  }

  lemma DropPreserves(max: nat, p: Pool, c: Ticket, woken: Option<Ticket>, p': Pool)
    requires Inv(max, p) && Step(max, p, Drop(c, woken), p')
    ensures p.active > 0 && Inv(max, p')
  {
    SubsetCardinality({c}, Holders(p));
    assert Holders(p') == Holders(p) - {c};
    if woken.Some? {
      assert Notified(p') == Notified(p) + {woken.value};
      assert Sleepers(p') == Sleepers(p) - {woken.value};
    } else {
      assert Sleepers(p') == {};
    }
  }

  lemma StepPreserves(max: nat, p: Pool, e: Event, p': Pool)
    requires Inv(max, p) && Step(max, p, e, p')
    ensures Inv(max, p')
  {
    match e
    case Enter(c, deadline) =>
      assert Holders(p') == Holders(p) && Sleepers(p') == Sleepers(p) && Notified(p') == Notified(p);
    case Check(c) => CheckPreserves(max, p, c);
    case Wake(c, timedOut) =>
      assert Holders(p') == Holders(p) && Sleepers(p') == Sleepers(p) - {c} && Notified(p') == Notified(p);
    case LateTimer(c) =>
      assert Holders(p') == Holders(p) && Sleepers(p') == Sleepers(p) && Notified(p') == Notified(p);
    case Drop(c, woken) => DropPreserves(max, p, c, woken, p');
    case Tick =>
      assert Holders(p') == Holders(p) && Sleepers(p') == Sleepers(p) && Notified(p') == Notified(p);
  }

  /** Pool safety and the absence of lost wake-ups, in every state of every run. */
  lemma {:induction false} RunsAreSafe(max: nat, states: seq<Pool>, events: seq<Event>, i: nat)
    requires Run(max, states, events) && i < |states|
    ensures Inv(max, states[i])
  {
    if i == 0 {
      assert Holders(states[0]) == {} && Sleepers(states[0]) == {};
    } else {
      RunsAreSafe(max, states, events, i - 1);
      StepPreserves(max, states[i - 1], events[i - 1], states[i]);
    }
  }

  /** A check turns a caller away exactly when its deadline has passed and the pool is
      full, and takes a permit exactly when one is free. */
  lemma FailsExactlyLateAndFull(max: nat, p: Pool, c: Ticket)
    requires Inv(max, p) && CanCheck(p, c)
    ensures Decide(max, p, c) == Expired <==> p.now >= p.entries[c].deadline && |Holders(p)| == max
    ensures Decide(max, p, c) == Acquired <==> |Holders(p)| < max
  {
  }

  /** What a check does in any run, whether it is the first or follows a wait: only a
      caller with time left goes (back) to sleep, and only when every permit is out. */
  lemma ChecksAreExact(max: nat, states: seq<Pool>, events: seq<Event>, i: nat, c: Ticket)
    requires Run(max, states, events) && i < |events| && events[i] == Check(c)
    ensures c in states[i].entries
    ensures var p, p' := states[i], states[i + 1];
      var late, full := p.now >= p.entries[c].deadline, |Holders(p)| == max;
      && (c !in p'.entries <==> late && full)
      && (c in Sleepers(p') <==> !late && full)
      && (c in Holders(p') <==> !full)
  {
    RunsAreSafe(max, states, events, i);
    assert Step(max, states[i], events[i], states[i + 1]);
    FailsExactlyLateAndFull(max, states[i], c);
  }

  /** So a deadline is kept: once it has passed, a sleeper's timer can go off, and the
      check after it settles the call one way or the other. */
  lemma LateSleeperIsSettled(max: nat, p: Pool, c: Ticket)
    requires Inv(max, p) && c in Sleepers(p) && p.now >= p.entries[c].deadline
    ensures var woken := Move(p, c, Awake(false, true));
      && Step(max, p, Wake(c, true), woken) && CanCheck(woken, c)
      && (c in Holders(Checked(max, woken, c)) <==> |Holders(p)| < max)
      && (c !in Checked(max, woken, c).entries <==> |Holders(p)| == max)
  {
    var woken := Move(p, c, Awake(false, true));
    assert Step(max, p, Wake(c, true), woken);
    StepPreserves(max, p, Wake(c, true), woken);
    assert Holders(woken) == Holders(p);
    FailsExactlyLateAndFull(max, woken, c);
  }

  /** If somebody sleeps, either a permit holder or a notified caller can move:
      the pool is never stuck on its own. */
  lemma SleepersAreCovered(max: nat, p: Pool) returns (c: Ticket)
    requires max >= 1 && Inv(max, p) && Sleepers(p) != {}
    ensures c in Holders(p) + Notified(p)
  {
    if p.active > 0 {
      c :| c in Holders(p);
    } else {
      c :| c in Notified(p);
    }
  }
}
