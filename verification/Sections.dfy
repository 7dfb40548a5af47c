/**
 The critical sections as they stand in memory: `ResolverInner` with its map of
 shared flights, and the permit counter. Each method is one section, and is
 proved to be the corresponding step of `Flights` or `Permits`.
 */
module Sections {
  import opened Wrappers
  import opened Releases
  import F = Flights
  import P = Permits

  type Caller = nat

  /** A `Flight` behind its `Arc`; `id` is its identity. */
  class Flight {
    ghost const id: nat
    ghost const leader: Caller
    ghost const job: Job
    var callers: int
    var result: Option<F.Outcome>

    constructor (ghost id: nat, ghost leader: Caller, ghost job: Job)
      ensures this.id == id && this.leader == leader && this.job == job
      ensures callers == 1 && result == None
    {
      this.id, this.leader, this.job := id, leader, job;
      callers, result := 1, None;
    }

    ghost function State(): F.Flight reads this { F.Flight(leader, job, callers, result) }

    /** The mutex section of `wait_for_flight`: `timedOut` is whether the wait that
        just ended hit its timer. `None` means the caller waits again. */
    method Look(timedOut: bool, now: nat, deadline: nat) returns (r: Option<F.Outcome>)
      ensures r ==
        if result.Some? then result
        else if timedOut || now >= deadline then Some(Err(F.TIMEOUT))
        else None
    {
      if timedOut && result.None? {
        return Some(Err(F.TIMEOUT));
      }
      if result.Some? {
        return result;
      }
      if now >= deadline {
        return Some(Err(F.TIMEOUT));
      }
      return None;
    }
  }

  /** The section decides exactly as the step `Look` does. */
  lemma LookIsStep(s: F.State, pc: F.Pc, r: Option<F.Outcome>)
    requires pc.Waiting? && !pc.wait.Asleep? && pc.flight < |s.flights|
    requires r == (if s.flights[pc.flight].result.Some? then s.flights[pc.flight].result
                   else if pc.wait == F.Awake(true) || s.now >= pc.job.deadline then Some(Err(F.TIMEOUT))
                   else None)
    ensures F.Looked(s, pc) ==
      match r
      case None => F.Waiting(pc.job, pc.flight, F.Asleep)
      case Some(Ok(resolution)) => F.Registering(pc.job, pc.flight, resolution)
      case Some(Err(error)) => F.Finished(pc.job, pc.flight, Err(error))
  {
  }

  class ResolverInner {
    var flights: map<string, Flight>
    ghost var all: seq<Flight>        // every flight ever created, in order

    constructor ()
      ensures Valid() && Shared() == F.Shared(map[], []) && all == []
    {
      flights, all := map[], [];
    }

    ghost predicate Valid()
      reads this, all
    {
      && (forall i :: 0 <= i < |all| ==> all[i].id == i)
      && (forall k :: k in flights ==> flights[k].id < |all| && all[flights[k].id] == flights[k])
    }

    /** What the sections of `Flights` see. */
    ghost function Shared(): F.Shared
      reads this, all
    {
      F.Shared(map k | k in flights :: flights[k].id,
               seq(|all|, i requires 0 <= i < |all| reads this, all => all[i].State()))
    }

    ghost predicate Knows(flight: Flight)
      reads this, all
    {
      flight.id < |all| && all[flight.id] == flight
    }

    lemma Linked()
      requires Valid()
      ensures F.WellLinked(Shared())
    {
    }

    /** The join, with the flight's own mutex nested inside the map's. */
    method Join(key: string, ghost c: Caller, ghost job: Job) returns (flight: Flight, leader: bool)
      requires Valid() && key == job.key
      modifies this, all
      ensures Valid() && Knows(flight)
      ensures F.WellLinked(old(Shared())) && (Shared(), flight.id, leader) == F.JoinShared(old(Shared()), c, job)
      ensures old(all) <= all && (forall f :: f in all ==> f in old(all) || fresh(f))
    {
      Linked();
      if key in flights {
        flight := flights[key];
        flight.callers := flight.callers + 1;
        leader := false;
        assert Shared().flights == F.JoinShared(old(Shared()), c, job).0.flights;
      } else {
        flight := new Flight(|all|, c, job);
        flights := flights[key := flight];
        all := all + [flight];
        leader := true;
        assert Shared().flights == F.JoinShared(old(Shared()), c, job).0.flights;
        assert Shared().table == F.JoinShared(old(Shared()), c, job).0.table;
      }
    }

    /** The leader's section: the result is set and everyone waiting is notified. */
    method Publish(flight: Flight, outcome: F.Outcome)
      requires Valid() && Knows(flight)
      modifies flight
      ensures Valid() && Shared() == F.PublishShared(old(Shared()), flight.id, outcome)
    {
      flight.result := Some(outcome);
      assert Shared().flights == F.PublishShared(old(Shared()), flight.id, outcome).flights;
    }

    /** First section of `release_flight`. */
    method Leave(flight: Flight) returns (remove: bool)
      requires Valid() && Knows(flight)
      modifies flight
      ensures Valid() && Shared() == F.LeaveShared(old(Shared()), flight.id)
      ensures remove <==> F.LeaveShared(old(Shared()), flight.id).flights[flight.id].callers == 0
    {
      flight.callers := flight.callers - 1;
      remove := flight.callers == 0;
      assert Shared().flights == F.LeaveShared(old(Shared()), flight.id).flights;
    }

    /** Second section: `Arc::ptr_eq` guards the removal. */
    method Remove(key: string, flight: Flight)
      requires Valid() && Knows(flight)
      modifies this`flights
      ensures Valid() && Shared() == F.RemoveShared(old(Shared()), key, flight.id)
    {
      if key in flights && flights[key] == flight {
        flights := flights - {key};
      }
      assert Shared().table == F.RemoveShared(old(Shared()), key, flight.id).table;
    }
  }

  /** The `permits` mutex and what it protects. The waiters themselves are threads,
      kept here as ghost state. */
  class PermitPool {
    const max: nat
    var active: int
    ghost var pool: P.Pool

    constructor (max: nat)
      ensures Valid() && this.max == max && pool == P.Pool(0, 0, map[])
    {
      this.max, active, pool := max, 0, P.Pool(0, 0, map[]);
      new;
      assert P.Holders(pool) == {} && P.Sleepers(pool) == {};
    }

    ghost predicate Valid()
      reads this
    {
      active == pool.active && P.Inv(max, pool)
    }

    /** Taking the mutex, first or again after a wait; `timedOut` and `late` are what
        the timer and the clock say. */
    method Check(ghost c: P.Ticket, timedOut: bool, late: bool) returns (verdict: P.Verdict)
      requires Valid() && P.CanCheck(pool, c)
      requires timedOut == (pool.entries[c].phase.Awake? && pool.entries[c].phase.timedOut)
      requires late == (pool.now >= pool.entries[c].deadline)
      modifies this
      ensures Valid() && pool == P.Checked(max, old(pool), c) && verdict == P.Decide(max, old(pool), c)
      ensures verdict.Expired? <==> late && old(active) == max
      ensures verdict.Acquired? <==> old(active) < max
    {
      P.CheckPreserves(max, pool, c);
      pool := P.Checked(max, pool, c);
      if timedOut && active >= max {
        return P.Expired;
      }
      if active >= max {
        if late {
          return P.Expired;
        }
        return P.Blocked;
      }
      active := active + 1;
      return P.Acquired;
    }

    /** `Permit::drop`. */
    method Drop(ghost c: P.Ticket, ghost woken: Option<P.Ticket>)
      requires Valid() && c in P.Holders(pool)
      requires (woken.None? <==> P.Sleepers(pool) == {}) && (woken.Some? ==> woken.value in P.Sleepers(pool))
      modifies this
      ensures Valid() && pool == P.Dropped(old(pool), c, woken)
      ensures active == old(active) - 1 >= 0
    {
      P.DropPreserves(max, pool, c, woken, P.Dropped(pool, c, woken));
      active := active - 1;
      pool := P.Dropped(pool, c, woken);
    }
  }
}
