/**
 The two records of a lock, one in the task's hash and one in the user's. They can part: each
 hash is dropped at its own deadline. While every lock is taken for the same time and every
 release leaves both hashes the grace period, they do not.
 */
module Records {
  import opened Options
  import opened LockTable
  import opened LockStore
  import opened LockSystem

  predicate Live(h: Table, k: Id, now: Time) {
    k in h && h[k] >= now
  }

  // The hash is not dropped before this instant.
  predicate Lasts(st: Store, k: Key, until: Time) {
    st.Lease(k).Some? ==> st.Lease(k).value >= until
  }

  // A lock that has not expired is recorded twice, and neither hash is dropped before it expires.
  predicate Matches(st: Store, now: Time, task: Id, user: Id) {
    var users, tasks := st.Users(task), st.Tasks(user);
    && (Live(users, user, now) ==>
          && task in tasks && tasks[task] == users[user]
          && Lasts(st, TaskUsers(task), users[user]) && Lasts(st, UserTasks(user), users[user]))
    && (Live(tasks, task, now) ==> user in users && users[user] == tasks[task])
  }

  // And no lock has more than this time left.
  predicate WholeAt(st: Store, now: Time, timeout: Time, task: Id, user: Id) {
    Matches(st, now, task, user) && (user in st.Users(task) ==> st.Users(task)[user] <= now + timeout)
  }

  ghost predicate Whole(st: Store, now: Time, timeout: Time) {
    forall t, u :: WholeAt(st, now, timeout, t, u)
  }

  // Both hashes outlive the grace period of a release made now.
  predicate InTime(st: Store, now: Time, task: Id, user: Id) {
    && Lasts(st, TaskUsers(task), now + EXPIRE_LOCK_DELAY)
    && Lasts(st, UserTasks(user), now + EXPIRE_LOCK_DELAY)
  }

  /** ---- What each change of the store keeps ---- */

  // The lock that is granted: both hashes take it up together, or both have it already.
  lemma GrantedIsWhole(st: Store, st1: Store, now: Time, timeout: Time, project: Id, user: Id, row: Candidate)
    requires WholeAt(st, now, timeout, row.task, user) && timeout > 0.0
    requires Grants(st, st1, now, timeout, project, user, row)
    ensures WholeAt(st1, now, timeout, row.task, user)
  {
  }

  // Another lock in one of the two hashes ends before the new deadline.
  lemma OthersStayWhole(st: Store, st1: Store, now: Time, timeout: Time, project: Id, user: Id, row: Candidate, t: Id, u: Id)
    requires WholeAt(st, now, timeout, t, u) && timeout > 0.0 && (t != row.task || u != user)
    requires Grants(st, st1, now, timeout, project, user, row)
    ensures WholeAt(st1, now, timeout, t, u)
  {
  }

  lemma GrantedKeepsWhole(st: Store, st1: Store, now: Time, timeout: Time, project: Id, user: Id, row: Candidate)
    requires Whole(st, now, timeout) && timeout > 0.0
    requires Grants(st, st1, now, timeout, project, user, row)
    ensures Whole(st1, now, timeout)
  {
    forall t, u ensures WholeAt(st1, now, timeout, t, u) {
      assert WholeAt(st, now, timeout, t, u);
      if t == row.task && u == user {
        GrantedIsWhole(st, st1, now, timeout, project, user, row);
      } else {
        OthersStayWhole(st, st1, now, timeout, project, user, row, t, u);
      }
    }
  }

  lemma GrantKeepsWhole(st: Store, now: Time, timeout: Time, project: Id, user: Id, row: Candidate)
    requires Whole(st, now, timeout) && timeout > 0.0
    ensures Whole(Grant(st, now, timeout, project, user, row).store, now, timeout)
  {
    GrantEffect(st, now, timeout, project, user, row);
    GrantedKeepsWhole(st, Grant(st, now, timeout, project, user, row).store, now, timeout, project, user, row);
  }

  lemma PurgedKeepsWhole(st: Store, st1: Store, now: Time, timeout: Time, key: Key)
    requires Whole(st, now, timeout) && Purges(st, st1, now, key)
    ensures Whole(st1, now, timeout)
  {
    forall t, u ensures WholeAt(st1, now, timeout, t, u) { assert WholeAt(st, now, timeout, t, u); }
  }

  lemma PurgeKeepsWhole(st: Store, now: Time, timeout: Time, key: Key)
    requires Whole(st, now, timeout)
    ensures Whole(Purge(st, now, key), now, timeout)
  {
    PurgeEffect(st, now, key);
    PurgedKeepsWhole(st, Purge(st, now, key), now, timeout, key);
  }

  lemma DroppedKeepsWhole(st: Store, st1: Store, now: Time, later: Time, timeout: Time)
    requires Whole(st, now, timeout) && now <= later && Drops(st, st1, later)
    ensures Whole(st1, later, timeout)
  {
    forall t, u ensures WholeAt(st1, later, timeout, t, u) { assert WholeAt(st, now, timeout, t, u); }
  }

  lemma RememberKeepsWhole(cfg: Config, st: Store, now: Time, timeout: Time, user: Id)
    requires Whole(st, now, timeout)
    ensures Whole(Remember(cfg, st, now, user), now, timeout)
  {
    forall t, u ensures WholeAt(Remember(cfg, st, now, user), now, timeout, t, u) { assert WholeAt(st, now, timeout, t, u); }
  }

  // A release keeps the records together exactly when it leaves both hashes the grace period.
  lemma ReleasedKeepsWholeIff(st: Store, st1: Store, now: Time, timeout: Time, task: Id, user: Id, name: ProjectName)
    requires Whole(st, now, timeout) && timeout >= EXPIRE_LOCK_DELAY
    requires Releases(st, st1, now, task, user, name)
    ensures Whole(st1, now, timeout) <==> InTime(st, now, task, user)
  {
    assert WholeAt(st, now, timeout, task, user);
    if InTime(st, now, task, user) {
      forall t, u ensures WholeAt(st1, now, timeout, t, u) { assert WholeAt(st, now, timeout, t, u); }
    } else {
      assert !WholeAt(st1, now, timeout, task, user);
    }
  }

  lemma ReleaseKeepsWholeIff(st: Store, now: Time, timeout: Time, task: Id, user: Id)
    requires Whole(st, now, timeout) && timeout >= EXPIRE_LOCK_DELAY
    ensures Whole(ReleaseLock(st, now, task, user), now, timeout) <==> InTime(st, now, task, user)
  {
    ReleaseLockEffect(st, now, task, user);
    ReleasedKeepsWholeIff(st, ReleaseLock(st, now, task, user), now, timeout, task, user, Raw(st.OwnerOf(task, now)));
  }

  /** ---- Over whole runs ---- */

  // Locks are taken for this time, and releases leave both hashes the grace period.
  predicate Regular(s: System, timeout: Time, step: Step) {
    match step
    case Request(_, time, _, _, _, _) => time == timeout
    case DirectRequest(time, _, _, _) => time == timeout
    case Submit(user, task) => InTime(s.store, s.clock, task, user)
    case Cancel(user, task) => InTime(s.store, s.clock, task, user)
    case _ => true
  }

  ghost predicate AllRegular(cfg: Config, s: System, timeout: Time, steps: seq<Step>)
    requires Possible(cfg, s, steps)
    decreases |steps|
  {
    steps != [] ==> Regular(s, timeout, steps[0]) && AllRegular(cfg, Next(cfg, s, steps[0]), timeout, steps[1..])
  }

  lemma {:induction false} FirstGrantKeepsWhole(st: Store, now: Time, timeout: Time, project: Id, user: Id, rows: seq<Candidate>)
    requires Whole(st, now, timeout) && timeout > 0.0
    ensures Whole(FirstGrant(st, now, timeout, project, user, rows).store, now, timeout)
    decreases |rows|
  {
    if rows != [] {
      GrantKeepsWhole(st, now, timeout, project, user, rows[0]);
      var first := Grant(st, now, timeout, project, user, rows[0]);
      if !first.granted { FirstGrantKeepsWhole(first.store, now, timeout, project, user, rows[1..]); }
    }
  }

  lemma RequestKeepsWhole(cfg: Config, s: System, timeout: Time, step: Step)
    requires Whole(s.store, s.clock, timeout) && timeout > 0.0
    requires Enabled(cfg, s, step) && step.Request? && step.timeout == timeout
    ensures Whole(Next(cfg, s, step).store, s.clock, timeout)
  {
    RememberKeepsWhole(cfg, s.store, s.clock, timeout, step.user);
    var st1 := if step.saved then s.store else Remember(cfg, s.store, s.clock, step.user);
    PurgeKeepsWhole(st1, s.clock, timeout, ActiveUsers(Decoded(step.project)));
    FirstGrantKeepsWhole(Purge(st1, s.clock, ActiveUsers(Decoded(step.project))), s.clock, timeout,
                         step.project, step.user, step.rows);
  }

  lemma DirectRequestKeepsWhole(cfg: Config, s: System, timeout: Time, step: Step)
    requires Whole(s.store, s.clock, timeout) && timeout > 0.0
    requires Enabled(cfg, s, step) && step.DirectRequest? && step.timeout == timeout
    ensures Whole(Next(cfg, s, step).store, s.clock, timeout)
  {
    var t := cfg.tasks[step.task];
    GrantKeepsWhole(s.store, s.clock, timeout, t.project, step.user,
                    Candidate(step.task, |s.RunsOf(step.task)|, t.answers, t.gold, step.gotMutex));
  }

  lemma TickKeepsWhole(cfg: Config, s: System, timeout: Time, step: Step)
    requires Whole(s.store, s.clock, timeout) && Enabled(cfg, s, step) && step.Tick?
    ensures var s1 := Next(cfg, s, step); Whole(s1.store, s1.clock, timeout)
  {
    var later := s.clock + step.elapsed;
    DropEffect(s.store, later);
    DroppedKeepsWhole(s.store, Drop(s.store, later), s.clock, later, timeout);
  }

  lemma StepKeepsWhole(cfg: Config, s: System, timeout: Time, step: Step)
    requires Whole(s.store, s.clock, timeout) && timeout >= EXPIRE_LOCK_DELAY
    requires Enabled(cfg, s, step) && Regular(s, timeout, step)
    ensures var s1 := Next(cfg, s, step); Whole(s1.store, s1.clock, timeout)
  {
    match step
    case Request(_, _, _, _, _, _) => RequestKeepsWhole(cfg, s, timeout, step);
    case DirectRequest(_, _, _, _) => DirectRequestKeepsWhole(cfg, s, timeout, step);
    case Submit(user, task) => ReleaseKeepsWholeIff(s.store, s.clock, timeout, task, user);
    case Cancel(user, task) => ReleaseKeepsWholeIff(s.store, s.clock, timeout, task, user);
    case Expunge(key) => PurgeKeepsWhole(s.store, s.clock, timeout, key);
    case Tick(_) => TickKeepsWhole(cfg, s, timeout, step);
  }

  lemma {:induction false} RunKeepsWhole(cfg: Config, s: System, timeout: Time, steps: seq<Step>)
    requires Whole(s.store, s.clock, timeout) && timeout >= EXPIRE_LOCK_DELAY
    requires Possible(cfg, s, steps) && AllRegular(cfg, s, timeout, steps)
    ensures var end := After(cfg, s, steps); Whole(end.store, end.clock, timeout)
    decreases |steps|
  {
    if steps != [] {
      StepKeepsWhole(cfg, s, timeout, steps[0]);
      RunKeepsWhole(cfg, Next(cfg, s, steps[0]), timeout, steps[1..]);
    }
  }

  lemma InitiallyWhole(s: System, timeout: Time)
    requires Initial(s)
    ensures Whole(s.store, s.clock, timeout)
  {
    forall t, u ensures WholeAt(s.store, s.clock, timeout, t, u) {}
  }

  // Over every run with one timeout whose releases are in time, both hashes show the same locks.
  lemma RecordsMatch(cfg: Config, s: System, timeout: Time, steps: seq<Step>)
    requires Initial(s) && timeout >= EXPIRE_LOCK_DELAY
    requires Possible(cfg, s, steps) && AllRegular(cfg, s, timeout, steps)
    ensures var end := After(cfg, s, steps); forall t, u :: Matches(end.store, end.clock, t, u)
  {
    InitiallyWhole(s, timeout);
    RunKeepsWhole(cfg, s, timeout, steps);
    var end := After(cfg, s, steps);
    forall t, u ensures Matches(end.store, end.clock, t, u) { assert WholeAt(end.store, end.clock, timeout, t, u); }
  }
}
