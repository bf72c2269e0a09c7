/**
 The time to live on a whole lock hash, which each new entry sets to its own expiration,
 with one duration for all entries. Releasing a lock does not touch it.
 */
module HashTtl {
  import opened LockTable

  // A hash, the instant after which Redis drops it, and the clients that released.
  datatype Leased = Leased(clock: Time, entries: Table, deadline: Time, released: set<Id>)

  datatype Op =
    | Grab(client: Id, limit: Limit, gotMutex: bool)
    | Free(client: Id)
    | Clean
    | Pass(elapsed: Time)

  predicate Allowed(l: Leased, op: Op) {
    match op
    case Free(client) => client in l.entries
    case Pass(elapsed) => elapsed >= 0.0
    case _ => true
  }

  function Apply(l: Leased, duration: Time, op: Op): Leased
    requires Allowed(l, op)
  {
    match op
    case Grab(client, limit, gotMutex) =>
      var r := Acquire(l.entries, l.clock, duration, client, limit, gotMutex);
      if r.granted && client !in Sweep(l.entries, l.clock) then
        Leased(l.clock, r.table, l.clock + duration, l.released - {client})
      else
        l.(entries := r.table)
    case Free(client) => l.(entries := Release(l.entries, client, l.clock), released := l.released + {client})
    case Clean => l.(entries := Sweep(l.entries, l.clock))
    case Pass(elapsed) => l.(clock := l.clock + elapsed)
  }

  ghost predicate Possible(l: Leased, duration: Time, ops: seq<Op>)
    decreases |ops|
  {
    ops == [] || (Allowed(l, ops[0]) && Possible(Apply(l, duration, ops[0]), duration, ops[1..]))
  }

  ghost function After(l: Leased, duration: Time, ops: seq<Op>): Leased
    requires Possible(l, duration, ops)
    decreases |ops|
  {
    if ops == [] then l else After(Apply(l, duration, ops[0]), duration, ops[1..])
  }

  // Entries not released expire by the deadline, which is at most one duration away.
  ghost predicate Dated(l: Leased, duration: Time) {
    && l.deadline <= l.clock + duration
    && forall c | c in l.entries && c !in l.released :: l.entries[c] <= l.deadline
  }

  lemma {:induction false} RunKeepsDates(l: Leased, duration: Time, ops: seq<Op>)
    requires duration >= 0.0 && Dated(l, duration) && Possible(l, duration, ops)
    ensures Dated(After(l, duration, ops), duration)
    decreases |ops|
  {
    if ops != [] {
      var next := Apply(l, duration, ops[0]);
      assert Dated(next, duration);
      RunKeepsDates(next, duration, ops[1..]);
    }
  }

  // When Redis drops the hash, no lock that was not released is still valid.
  lemma DropsNoUnreleasedLock(clock: Time, duration: Time, ops: seq<Op>, client: Id)
    requires duration >= 0.0
    requires Possible(Leased(clock, map[], clock, {}), duration, ops)
    requires var end := After(Leased(clock, map[], clock, {}), duration, ops);
             end.clock > end.deadline && client in end.entries && client !in end.released
    ensures var end := After(Leased(clock, map[], clock, {}), duration, ops);
            !HasLock(end.entries, client, end.clock) && client !in Sweep(end.entries, end.clock)
  {
    RunKeepsDates(Leased(clock, map[], clock, {}), duration, ops);
  }

  // Every release leaves its grace entry time to expire before the hash is dropped.
  ghost predicate ReleasesInTime(l: Leased, duration: Time, ops: seq<Op>)
    requires Possible(l, duration, ops)
    decreases |ops|
  {
    ops != [] ==>
      && (ops[0].Free? ==> l.clock + EXPIRE_LOCK_DELAY <= l.deadline)
      && ReleasesInTime(Apply(l, duration, ops[0]), duration, ops[1..])
  }

  ghost predicate AllDated(l: Leased, duration: Time) {
    && l.deadline <= l.clock + duration
    && forall c | c in l.entries :: l.entries[c] <= l.deadline
  }

  lemma {:induction false} RunKeepsAllDates(l: Leased, duration: Time, ops: seq<Op>)
    requires duration >= 0.0 && AllDated(l, duration)
    requires Possible(l, duration, ops) && ReleasesInTime(l, duration, ops)
    ensures AllDated(After(l, duration, ops), duration)
    decreases |ops|
  {
    if ops != [] {
      var next := Apply(l, duration, ops[0]);
      assert AllDated(next, duration);
      RunKeepsAllDates(next, duration, ops[1..]);
    }
  }

  // Then dropping the hash is nothing but the sweep that the next acquire would make.
  lemma DroppingIsSweeping(clock: Time, duration: Time, ops: seq<Op>)
    requires duration >= 0.0
    requires var start := Leased(clock, map[], clock, {});
             && Possible(start, duration, ops) && ReleasesInTime(start, duration, ops)
             && After(start, duration, ops).clock > After(start, duration, ops).deadline
    ensures var end := After(Leased(clock, map[], clock, {}), duration, ops);
            Sweep(end.entries, end.clock) == map[]
  {
    RunKeepsAllDates(Leased(clock, map[], clock, {}), duration, ops);
    var end := After(Leased(clock, map[], clock, {}), duration, ops);
    forall c ensures c !in Sweep(end.entries, end.clock) {}
  }

  // A release keeps all entries within the deadline exactly when it leaves that time.
  lemma ReleaseIsDatedIff(l: Leased, duration: Time, client: Id)
    requires AllDated(l, duration) && client in l.entries
    ensures AllDated(Apply(l, duration, Free(client)), duration) <==> l.clock + EXPIRE_LOCK_DELAY <= l.deadline
  {
    var next := Apply(l, duration, Free(client));
    assert next.entries[client] == l.clock + EXPIRE_LOCK_DELAY;
  }

  // A later release is cut short: the hash is dropped before its grace period is over.
  lemma LateReleaseIsCutShort(l: Leased, duration: Time, client: Id) returns (later: Time)
    requires client in l.entries && l.clock <= l.deadline < l.clock + EXPIRE_LOCK_DELAY
    ensures var next := Apply(l, duration, Free(client));
            next.deadline < later && HasLock(next.entries, client, later)
  {
    later := (l.deadline + l.clock + EXPIRE_LOCK_DELAY) / 2.0;
  }
}
