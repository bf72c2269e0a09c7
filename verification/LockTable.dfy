/**
 One Redis hash of the lock manager: client -> expiration time.

 The functions of this module say what each operation of the lock manager does
 to the entries of a hash at one instant `now`; the class in RedisLock.dfy
 carries the operations out command by command and is proved against them.
 */
module LockTable {
  import Sets

  // Users, tasks and projects are database ids; a clock reading is in seconds.
  type Id = int
  type Time = real
  type Table = map<Id, Time>

  // How long a released lock keeps its entry.
  const EXPIRE_LOCK_DELAY: Time := 5.0

  // The number of clients a resource admits; gold tasks and user hashes are unlimited.
  datatype Limit = Finite(n: int) | Infinite

  datatype Acquired = Acquired(table: Table, granted: bool)

  // Entries whose expiration lies strictly before `now` are dropped.
  function Sweep(h: Table, now: Time): Table {
    map c | c in h && !(now > h[c]) :: h[c]
  }

  lemma SweepKeepsLive(h: Table, now: Time)
    requires forall c | c in h :: h[c] >= now
    ensures Sweep(h, now) == h
  {
    forall c | c in h ensures c in Sweep(h, now) && Sweep(h, now)[c] == h[c] {}
  }

  predicate Admits(h: Table, limit: Limit, gotMutex: bool) {
    limit.Infinite? || (gotMutex && |h| < limit.n)
  }

  // The acquire writes a new entry.
  predicate Inserts(h: Table, now: Time, client: Id, limit: Limit, gotMutex: bool) {
    client !in Sweep(h, now) && Admits(Sweep(h, now), limit, gotMutex)
  }

  // An existing entry is granted again and not renewed; `gotMutex` is the outcome
  // of waiting for the update mutex, which only a finite limit needs.
  function Acquire(h: Table, now: Time, duration: Time, client: Id, limit: Limit, gotMutex: bool): Acquired {
    var live := Sweep(h, now);
    Acquired(if Inserts(h, now, client, limit, gotMutex) then live[client := now + duration] else live,
             client in live || Admits(live, limit, gotMutex))
  }

  // Who gets the lock, and what the hash holds then.
  lemma AcquireMeans(h: Table, now: Time, duration: Time, client: Id, limit: Limit, gotMutex: bool)
    ensures var r := Acquire(h, now, duration, client, limit, gotMutex);
            && (r.granted <==> (client in h && h[client] >= now) || limit.Infinite?
                               || (gotMutex && |set c | c in h && h[c] >= now| < limit.n))
            && (forall c :: c in r.table <==> (c in h && h[c] >= now) || (c == client && r.granted))
            && (forall c | c in r.table :: r.table[c] == if c in h && h[c] >= now then h[c] else now + duration)
  {
    var live := Sweep(h, now);
    assert live.Keys == set c | c in h && h[c] >= now;
    assert |live.Keys| == |live|;
  }

  predicate HasLock(h: Table, client: Id, now: Time) {
    client in h && h[client] > now
  }

  function Release(h: Table, client: Id, now: Time): Table {
    h[client := now + EXPIRE_LOCK_DELAY]
  }

  /** ---- What one operation keeps, for one task with a limited number of answers ---- */

  // The users who answered, with the time of their submission.
  type Runs = map<Id, Time>

  // Submissions old enough for every database replica to show them.
  function Settled(runs: Runs, now: Time): set<Id> {
    set u | u in runs && runs[u] < now - EXPIRE_LOCK_DELAY
  }

  // Users who answered or who still have an entry: what n_answers has to bound.
  function Claimants(h: Table, runs: Runs): set<Id> {
    h.Keys + runs.Keys
  }

  // A submission that a replica may still miss is covered by a grace entry.
  ghost predicate Graceful(h: Table, runs: Runs, now: Time) {
    forall u | u in runs && now <= runs[u] + EXPIRE_LOCK_DELAY ::
      u in h && h[u] >= runs[u] + EXPIRE_LOCK_DELAY
  }

  // The claimants are within the answers wanted, and grace entries keep them so.
  ghost predicate WithinAnswers(h: Table, runs: Runs, now: Time, answers: int) {
    |Claimants(h, runs)| <= answers && Graceful(h, runs, now)
  }

  // `shown` holds every submission that any replica shows.
  predicate Covers(shown: set<Id>, runs: Runs, now: Time) {
    forall u | u in runs && u !in shown :: now <= runs[u] + EXPIRE_LOCK_DELAY
  }

  // The entries stay, and at most one is new, which found room.
  ghost predicate MayAdd(live: Table, r: Table, client: Id, n: int) {
    && (forall c | c in live :: c in r && r[c] == live[c])
    && r.Keys <= live.Keys + {client}
    && (r.Keys <= live.Keys || |live| < n)
  }

  lemma AcquireMayAdd(h: Table, now: Time, duration: Time, client: Id, n: int, gotMutex: bool)
    ensures MayAdd(Sweep(h, now), Acquire(h, now, duration, client, Finite(n), gotMutex).table, client, n)
  {
  }

  lemma FewerClaims(live: Table, r: Table, runs: Runs)
    requires r.Keys <= live.Keys
    ensures |Claimants(r, runs)| <= |Claimants(live, runs)|
  {
    Sets.SubsetSize(Claimants(r, runs), Claimants(live, runs));
  }

  lemma SweepKeepsCapacity(h: Table, runs: Runs, now: Time, answers: int)
    requires WithinAnswers(h, runs, now, answers)
    ensures WithinAnswers(Sweep(h, now), runs, now, answers)
  {
    FewerClaims(h, Sweep(h, now), runs);
  }

  // While the entries leave room beside the shown submissions, one more client fits:
  // every other submission still has its grace entry.
  lemma RoomForOneMore(live: Table, r: Table, runs: Runs, now: Time, client: Id, shown: set<Id>, answers: int)
    requires Graceful(live, runs, now) && Covers(shown, runs, now)
    requires r.Keys <= live.Keys + {client} && |live| + |shown| < answers
    ensures |Claimants(r, runs)| <= answers
  {
    var before := live.Keys + shown;
    forall u | u in Claimants(r, runs) ensures u in before + {client} {
      if u in runs && u !in shown { assert u in live; }
    }
    Sets.UnionSize(live.Keys, shown);
    Sets.UnionSize(before, {client});
    Sets.SubsetSize(Claimants(r, runs), before + {client});
  }

  lemma OneMoreKeepsCapacity(live: Table, r: Table, runs: Runs, now: Time, client: Id, shown: set<Id>, seen: int, answers: int)
    requires WithinAnswers(live, runs, now, answers) && Covers(shown, runs, now) && seen >= |shown|
    requires MayAdd(live, r, client, answers - seen)
    ensures WithinAnswers(r, runs, now, answers)
  {
    if r.Keys <= live.Keys {
      FewerClaims(live, r, runs);
    } else {
      RoomForOneMore(live, r, runs, now, client, shown, answers);
    }
  }

  lemma SweptKeepsCapacity(h: Table, runs: Runs, now: Time, duration: Time, client: Id,
                           shown: set<Id>, seen: int, answers: int, gotMutex: bool)
    requires WithinAnswers(Sweep(h, now), runs, now, answers) && Covers(shown, runs, now) && seen >= |shown|
    ensures WithinAnswers(Acquire(h, now, duration, client, Finite(answers - seen), gotMutex).table, runs, now, answers)
  {
    AcquireMayAdd(h, now, duration, client, answers - seen, gotMutex);
    var r := Acquire(h, now, duration, client, Finite(answers - seen), gotMutex).table;
    OneMoreKeepsCapacity(Sweep(h, now), r, runs, now, client, shown, seen, answers);
  }

  // Granting against a stale count `seen` never over-assigns, provided `seen` misses
  // no submission older than the grace period.
  lemma AcquireKeepsCapacity(h: Table, runs: Runs, now: Time, duration: Time, client: Id,
                             seen: int, answers: int, gotMutex: bool)
    requires WithinAnswers(h, runs, now, answers) && seen >= |Settled(runs, now)|
    ensures WithinAnswers(Acquire(h, now, duration, client, Finite(answers - seen), gotMutex).table, runs, now, answers)
  {
    SweepKeepsCapacity(h, runs, now, answers);
    SweptKeepsCapacity(h, runs, now, duration, client, Settled(runs, now), seen, answers, gotMutex);
  }

  function AddIfRoom(live: Table, client: Id, expiration: Time, n: int): Table {
    if client in live || |live| >= n then live else live[client := expiration]
  }

  lemma AcquireAddsIfRoom(h: Table, now: Time, duration: Time, client: Id, n: int)
    ensures Acquire(h, now, duration, client, Finite(n), true).table == AddIfRoom(Sweep(h, now), client, now + duration, n)
  {
  }

  lemma ClaimsOneMore(live: Table, runs: Runs, client: Id, expiration: Time)
    ensures Claimants(live[client := expiration], runs) == Claimants(live, runs) + {client}
  {
    assert live[client := expiration].Keys == live.Keys + {client};
  }

  lemma OneMoreIsTooMany(before: set<Id>, client: Id, answers: int)
    requires |before| <= answers
    ensures |before + {client}| > answers <==> client !in before && |before| == answers
  {
    if client in before { assert before + {client} == before; }
  }

  // One acquire over-assigns exactly when the client is new, every answer is claimed already, and
  // the entries leave room beside the submissions that are counted.
  lemma AddOverAssignsIff(live: Table, runs: Runs, client: Id, expiration: Time, seen: int, answers: int)
    requires |Claimants(live, runs)| <= answers
    ensures |Claimants(AddIfRoom(live, client, expiration, answers - seen), runs)| > answers <==>
              client !in Claimants(live, runs) && |Claimants(live, runs)| == answers && |live| < answers - seen
  {
    if client !in live && |live| < answers - seen {
      ClaimsOneMore(live, runs, client, expiration);
      OneMoreIsTooMany(Claimants(live, runs), client, answers);
    }
  }

  // The grace period has to be as long as the lag: when every answer is given and no entry is left,
  // one submission missing from the count is enough to give the task to one user more.
  lemma MissedSubmissionOverAssigns(h: Table, runs: Runs, now: Time, duration: Time, client: Id, seen: int)
    requires Sweep(h, now) == map[] && client !in runs && seen < |runs|
    ensures var r := Acquire(h, now, duration, client, Finite(|runs| - seen), true).table;
            |Claimants(r, runs)| > |runs|
  {
    assert Claimants(Sweep(h, now), runs) == runs.Keys;
    assert |runs.Keys| == |runs|;
    AcquireAddsIfRoom(h, now, duration, client, |runs| - seen);
    AddOverAssignsIff(map[], runs, client, now + duration, seen, |runs|);
  }

  // A grace entry covers its submission as long as the submission may be missed, and no longer.
  lemma GraceEndsWithTheLag(at: Time, now: Time, client: Id)
    ensures var h := Release(map[], client, at);
            client in Sweep(h, now) <==> client !in Settled(map[client := at], now)
  {
    assert Release(map[], client, at)[client] == at + EXPIRE_LOCK_DELAY;
  }

  // Releasing a lock that has an entry claims nothing new, and the grace entry of an
  // earlier submission only grows.
  lemma ReleaseKeepsCapacity(h: Table, runs: Runs, now: Time, client: Id)
    requires client in h && Graceful(h, runs, now)
    requires client in runs ==> runs[client] <= now
    ensures Claimants(Release(h, client, now), runs) == Claimants(h, runs)
    ensures Graceful(Release(h, client, now), runs, now)
  {
    assert Release(h, client, now).Keys == h.Keys;
  }

  // A submission by a lock holder claims nothing new, and leaves a grace entry behind.
  lemma SubmitKeepsCapacity(h: Table, runs: Runs, now: Time, client: Id)
    requires client in h && client !in runs && Graceful(h, runs, now)
    ensures Claimants(Release(h, client, now), runs[client := now]) == Claimants(h, runs)
    ensures Graceful(Release(h, client, now), runs[client := now], now)
  {
    assert Release(h, client, now).Keys == h.Keys;
  }

  // A holder who has not answered yet finds room: the over-answered check lets it through.
  lemma HolderFindsRoom(h: Table, runs: Runs, client: Id, answers: int)
    requires |Claimants(h, runs)| <= answers
    requires client in h && client !in runs
    ensures |runs| < answers
  {
    assert runs.Keys + {client} <= Claimants(h, runs);
    Sets.SubsetSize(runs.Keys + {client}, Claimants(h, runs));
    assert |runs.Keys| == |runs|;
  }
}
