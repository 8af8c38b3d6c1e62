/** The job lock rows, their renewal loop, and what whole runs of rival owners can do. */
module JobLock {
  import opened Numbers

  const StaleAfter: int := 90
  const MaxInterval: int := 30

  datatype LockRow = LockRow(owner: string, lockedUntil: int, updatedAt: int)

  type Rows = map<string, LockRow>

  function RenewalInterval(ttl: int): int { MaxInt(5, MinInt(MaxInterval, ttl / 3)) }

  /** How long a lock stands without being refreshed. */
  function StandsFor(ttl: int): int { MinInt(ttl, StaleAfter) }

  // ------------------------------------------------------------- statements

  predicate MayAcquire(rows: Rows, key: string, owner: string, now: int) {
    key in rows ==>
      rows[key].lockedUntil <= now || rows[key].owner == owner || rows[key].updatedAt <= now - StaleAfter
  }

  predicate Owns(rows: Rows, key: string, owner: string) { key in rows && rows[key].owner == owner }

  /** One statement against the table; seconds come from the database clock. */
  datatype Event =
    | Acquire(key: string, owner: string, ttl: int, at: int)
    | Renew(key: string, owner: string, ttl: int, at: int)
    | Release(key: string, owner: string, at: int)

  /** Whether the statement touches a row. */
  predicate Takes(rows: Rows, e: Event) {
    match e
    case Acquire(key, owner, _, at) => MayAcquire(rows, key, owner, at)
    case Renew(key, owner, _, _) => Owns(rows, key, owner)
    case Release(key, owner, _) => Owns(rows, key, owner)
  }

  function Apply(rows: Rows, e: Event): Rows {
    if !Takes(rows, e) then rows
    else match e
      case Acquire(key, owner, ttl, at) => rows[key := LockRow(owner, at + ttl, at)]
      case Renew(key, owner, ttl, at) => rows[key := rows[key].(lockedUntil := at + ttl, updatedAt := at)]
      case Release(key, _, _) => rows - {key}
  }

  class JobLocks {
    var rows: Rows

    constructor ()
      ensures rows == map[]
    {
      rows := map[];
    }

    method TryAcquire(key: string, owner: string, ttl: int, now: int) returns (acquired: bool)
      modifies this
      ensures acquired == Takes(old(rows), Acquire(key, owner, ttl, now))
      ensures rows == Apply(old(rows), Acquire(key, owner, ttl, now))
      ensures acquired <==> (key in old(rows) ==> || old(rows)[key].owner == owner
                                                  || old(rows)[key].lockedUntil <= now
                                                  || old(rows)[key].updatedAt + 90 <= now)
      ensures rows == if acquired then old(rows)[key := LockRow(owner, now + ttl, now)] else old(rows)
    {
      acquired := key !in rows || rows[key].lockedUntil <= now || rows[key].owner == owner
                  || rows[key].updatedAt <= now - StaleAfter;
      if acquired {
        rows := rows[key := LockRow(owner, now + ttl, now)];
      }
    }

    method Renew(key: string, owner: string, ttl: int, now: int) returns (renewed: bool)
      modifies this
      ensures renewed == Takes(old(rows), Event.Renew(key, owner, ttl, now))
      ensures rows == Apply(old(rows), Event.Renew(key, owner, ttl, now))
      ensures renewed <==> key in old(rows) && old(rows)[key].owner == owner
      ensures rows == if renewed then old(rows)[key := LockRow(owner, now + ttl, now)] else old(rows)
    {
      renewed := key in rows && rows[key].owner == owner;
      if renewed {
        rows := rows[key := LockRow(owner, now + ttl, now)];
      }
    }

    method Release(key: string, owner: string, now: int)
      modifies this
      ensures rows == Apply(old(rows), Event.Release(key, owner, now))
      ensures rows == if key in old(rows) && old(rows)[key].owner == owner then old(rows) - {key} else old(rows)
    {
      if key in rows && rows[key].owner == owner {
        rows := rows - {key};
      }
    }

    method IsActive(key: string, now: int) returns (active: bool)
      ensures active == (key in rows && rows[key].lockedUntil > now && rows[key].updatedAt > now - StaleAfter)
      ensures active ==> forall owner: string :: owner != rows[key].owner ==> !MayAcquire(rows, key, owner, now)
    {
      active := key in rows && rows[key].lockedUntil > now && rows[key].updatedAt > now - StaleAfter;
    }

    /** The renewal loop of a holder: each round sleeps the interval and an extra delay
        while rivals try to acquire, then renews. The loop ends early when a renewal
        touches no row. */
    method RenewLoop(key: string, owner: string, ttl: int, started: int, rounds: seq<Round>)
      returns (lost: bool, rivalGot: bool)
      requires key in rows && rows[key] == LockRow(owner, started + ttl, started)
      requires forall i :: 0 <= i < |rounds| ==> InTime(rounds[i], owner, ttl)
      modifies this
      ensures !lost && !rivalGot
      ensures key in rows && rows[key].owner == owner
    {
      lost, rivalGot := false, false;
      var refreshed := started;
      for i := 0 to |rounds|
        invariant key in rows && rows[key] == LockRow(owner, refreshed + ttl, refreshed)
        invariant !rivalGot
      {
        var r := rounds[i];
        assert InTime(r, owner, ttl);
        for j := 0 to |r.rivals|
          invariant key in rows && rows[key] == LockRow(owner, refreshed + ttl, refreshed)
          invariant !rivalGot
        {
          var got := TryAcquire(key, r.rivals[j].owner, r.rivals[j].ttl, refreshed + r.rivals[j].after);
          rivalGot := rivalGot || got;
        }
        var now := refreshed + RenewalInterval(ttl) + r.delay;
        var renewed := Renew(key, owner, ttl, now);
        if !renewed {
          lost := true;
          return;
        }
        refreshed := now;
      }
    }
  }

  datatype Rival = Rival(owner: string, ttl: int, after: nat)

  datatype Round = Round(delay: nat, rivals: seq<Rival>)

  /** A round that renews before the lock stops standing, whatever its rivals try meanwhile. */
  predicate InTime(r: Round, owner: string, ttl: int) {
    && RenewalInterval(ttl) + r.delay < StandsFor(ttl)
    && (forall j :: 0 <= j < |r.rivals| ==>
          r.rivals[j].owner != owner && r.rivals[j].after <= RenewalInterval(ttl) + r.delay)
  }

  /** The interval leaves time to spare exactly for a ttl above five seconds. */
  lemma IntervalLeavesSlack(ttl: int)
    ensures RenewalInterval(ttl) < StandsFor(ttl) <==> ttl > 5
  {
  }

  /** From fifteen seconds on, the lock outlives three intervals, so two renewals in a row may
      fail; up to half a minute the interval is the longest of which that is true. */
  lemma ThreeIntervalsFit(ttl: int)
    requires ttl >= 15
    ensures 5 <= RenewalInterval(ttl) <= 30 && 3 * RenewalInterval(ttl) <= MinInt(ttl, 90)
    ensures RenewalInterval(ttl) < 30 ==> 3 * (RenewalInterval(ttl) + 1) > ttl
  {
  }

  // ------------------------------------------------------------- whole runs

  function Run(rows: Rows, events: seq<Event>): Rows
    decreases |events|
  {
    if events == [] then rows else Run(Apply(rows, events[0]), events[1..])
  }

  /** A lock refreshed at `since` and left alone is free for a rival exactly from the
      moment it stops standing. */
  lemma RivalAcquiresExactlyWhenUnrefreshed(
    rows: Rows, key: string, owner: string, ttl: int, since: int, rival: string, now: int)
    requires key in rows && rows[key] == LockRow(owner, since + ttl, since) && rival != owner
    ensures MayAcquire(rows, key, rival, now) <==> now - since >= ttl || now - since >= 90
  {
  }

  /** The events never let the lock go unrefreshed for as long as it stands: `since` is the
      holder's last refresh, and the holder neither releases it nor changes its ttl. */
  predicate KeptUp(events: seq<Event>, key: string, owner: string, ttl: int, since: int)
    decreases |events|
  {
    events == [] ||
    (var e := events[0];
     && e.at - since < StandsFor(ttl)
     && (e.key == key && e.owner == owner ==> !e.Release? && e.ttl == ttl)
     && KeptUp(events[1..], key, owner, ttl, if e.key == key && e.owner == owner then e.at else since))
  }

  /** No rival statement of the run touches the row. */
  predicate RivalsFail(rows: Rows, events: seq<Event>, key: string, owner: string)
    decreases |events|
  {
    events == [] ||
    (&& (events[0].key == key && events[0].owner != owner ==> !Takes(rows, events[0]))
     && RivalsFail(Apply(rows, events[0]), events[1..], key, owner))
  }

  /** Between acquiring and releasing, a holder that keeps up cannot be displaced: no
      statement of any other owner, in any interleaving, touches its row. */
  lemma {:induction false} KeptLockIsExclusive(
    rows: Rows, events: seq<Event>, key: string, owner: string, ttl: int, since: int)
    requires key in rows && rows[key] == LockRow(owner, since + ttl, since)
    requires KeptUp(events, key, owner, ttl, since)
    ensures RivalsFail(rows, events, key, owner)
    ensures Owns(Run(rows, events), key, owner)
    decreases |events|
  {
    if events != [] {
      var e := events[0];
      var refreshed := if e.key == key && e.owner == owner then e.at else since;
      KeptLockIsExclusive(Apply(rows, e), events[1..], key, owner, ttl, refreshed);
    }
  }

  /** The old owner never acquires the key again. */
  predicate NeverReacquires(events: seq<Event>, key: string, owner: string) {
    forall i :: 0 <= i < |events| ==> !(events[i].Acquire? && events[i].key == key && events[i].owner == owner)
  }

  /** None of the owner's statements in the run touches the row. */
  predicate Powerless(rows: Rows, events: seq<Event>, key: string, owner: string)
    decreases |events|
  {
    events == [] ||
    (&& (events[0].key == key && events[0].owner == owner ==> !Takes(rows, events[0]))
     && Powerless(Apply(rows, events[0]), events[1..], key, owner))
  }

  /** Once another owner has acquired the lock, every later renew or release by the old
      owner affects no row, over any run in which it does not acquire the lock afresh. */
  lemma {:induction false} DisplacedOwnerIsPowerless(rows: Rows, events: seq<Event>, key: string, owner: string)
    requires !Owns(rows, key, owner) && NeverReacquires(events, key, owner)
    ensures Powerless(rows, events, key, owner)
    decreases |events|
  {
    if events != [] {
      assert !(events[0].Acquire? && events[0].key == key && events[0].owner == owner);
      assert NeverReacquires(events[1..], key, owner);
      DisplacedOwnerIsPowerless(Apply(rows, events[0]), events[1..], key, owner);
    }
  }
}
