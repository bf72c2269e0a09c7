/**
 With locks granted by the scheduler's ordinary path only, and each grant sparing the user's other
 locks, a user works on one task of a project at a time, and asking again returns that task.
 */
module Holding {
  import opened Options
  import opened LockTable
  import opened LockStore
  import opened LockSystem
  import Listing
  import LostLocks
  import Records

  // The user's lock on the task has more left than the scheduler needs to hand it out again.
  predicate Long(h: Table, k: Id, now: Time) {
    k in h && h[k] > now + REUSE_LOCK_SECONDS
  }

  predicate SameProject(cfg: Config, t1: Id, t2: Id) {
    t1 in cfg.tasks && t2 in cfg.tasks && cfg.tasks[t1].project == cfg.tasks[t2].project
  }

  predicate NotBothLong(cfg: Config, st: Store, now: Time, user: Id, t1: Id, t2: Id) {
    t1 != t2 && SameProject(cfg, t1, t2) ==> !(Long(st.Tasks(user), t1, now) && Long(st.Tasks(user), t2, now))
  }

  // A user's hash has at most one long lock for each project.
  ghost predicate OneLong(cfg: Config, st: Store, now: Time) {
    forall u, t1, t2 :: NotBothLong(cfg, st, now, u, t1, t2)
  }

  // A long lock is in the user's hash, which is there for as long as the lock is long.
  predicate RecordedAt(st: Store, now: Time, user: Id, task: Id) {
    Long(st.Users(task), user, now) ==>
      && task in st.Tasks(user) && st.Tasks(user)[task] >= st.Users(task)[user]
      && Records.Lasts(st, UserTasks(user), st.Users(task)[user] - REUSE_LOCK_SECONDS)
  }

  ghost predicate Recorded(st: Store, now: Time) {
    forall u, t :: RecordedAt(st, now, u, t)
  }

  // No lock of the user in the project is long.
  ghost predicate NoneLong(cfg: Config, st: Store, now: Time, project: Id, user: Id) {
    forall t | t in cfg.tasks && cfg.tasks[t].project == project :: !Long(st.Tasks(user), t, now)
  }

  /** ---- Grants ---- */

  // The deadline that a new entry gives the user's hash does not come while another lock of the
  // user, in any project, is long; and a long lock is not taken up by the task's hash alone.
  ghost predicate GrantSpares(st: Store, now: Time, timeout: Time, user: Id, task: Id) {
    if task !in Sweep(st.Tasks(user), now) then
      forall t | Long(st.Users(t), user, now) :: st.Users(t)[user] - REUSE_LOCK_SECONDS <= now + timeout
    else
      user !in Sweep(st.Users(task), now) ==> timeout <= REUSE_LOCK_SECONDS
  }

  lemma GrantedKeepsOneLong(cfg: Config, st: Store, st1: Store, now: Time, timeout: Time, project: Id, user: Id,
                            row: Candidate)
    requires OneLong(cfg, st, now) && NoneLong(cfg, st, now, project, user)
    requires Grants(st, st1, now, timeout, project, user, row)
    requires row.task in cfg.tasks && cfg.tasks[row.task].project == project
    ensures OneLong(cfg, st1, now)
  {
    forall u, t1, t2 ensures NotBothLong(cfg, st1, now, u, t1, t2) {
      assert NotBothLong(cfg, st, now, u, t1, t2);
    }
  }

  lemma OtherIsRecordedIff(cfg: Config, st: Store, st1: Store, now: Time, timeout: Time, project: Id, user: Id,
                           row: Candidate, u: Id, t: Id)
    requires RecordedAt(st, now, u, t) && (u != user || t != row.task)
    requires Grants(st, st1, now, timeout, project, user, row) && Granted(st, now, timeout, user, row)
    ensures RecordedAt(st1, now, u, t) <==>
              (u == user && row.task !in Sweep(st.Tasks(user), now) && Long(st.Users(t), user, now) ==>
                 st.Users(t)[user] - REUSE_LOCK_SECONDS <= now + timeout)
  {
    if Long(st.Users(t), u, now) {
      assert t in Sweep(st.Tasks(u), now);
    }
  }

  lemma NewIsRecordedIff(cfg: Config, st: Store, st1: Store, now: Time, timeout: Time, project: Id, user: Id, row: Candidate)
    requires RecordedAt(st, now, user, row.task) && !Long(st.Tasks(user), row.task, now)
    requires Grants(st, st1, now, timeout, project, user, row) && Granted(st, now, timeout, user, row)
    ensures RecordedAt(st1, now, user, row.task) <==>
              (row.task in Sweep(st.Tasks(user), now) && user !in Sweep(st.Users(row.task), now) ==>
                 timeout <= REUSE_LOCK_SECONDS)
  {
  }

  lemma GrantedKeepsRecordedIff(cfg: Config, st: Store, st1: Store, now: Time, timeout: Time, project: Id, user: Id,
                                row: Candidate)
    requires Recorded(st, now) && NoneLong(cfg, st, now, project, user)
    requires row.task in cfg.tasks && cfg.tasks[row.task].project == project
    requires Grants(st, st1, now, timeout, project, user, row) && Granted(st, now, timeout, user, row)
    ensures Recorded(st1, now) <==> GrantSpares(st, now, timeout, user, row.task)
  {
    assert RecordedAt(st, now, user, row.task);
    NewIsRecordedIff(cfg, st, st1, now, timeout, project, user, row);
    forall u, t | u != user || t != row.task
      ensures RecordedAt(st1, now, u, t) <==>
                (u == user && row.task !in Sweep(st.Tasks(user), now) && Long(st.Users(t), user, now) ==>
                   st.Users(t)[user] - REUSE_LOCK_SECONDS <= now + timeout)
    {
      assert RecordedAt(st, now, u, t);
      OtherIsRecordedIff(cfg, st, st1, now, timeout, project, user, row, u, t);
    }
    if Recorded(st1, now) {
      forall t | Long(st.Users(t), user, now) && row.task !in Sweep(st.Tasks(user), now)
        ensures st.Users(t)[user] - REUSE_LOCK_SECONDS <= now + timeout
      {
        assert RecordedAt(st1, now, user, t) && RecordedAt(st, now, user, t);
      }
    }
  }

  lemma RefusedKeepsRecorded(st: Store, st1: Store, now: Time, timeout: Time, project: Id, user: Id, row: Candidate)
    requires Recorded(st, now)
    requires Grants(st, st1, now, timeout, project, user, row) && !Granted(st, now, timeout, user, row)
    ensures Recorded(st1, now) && st1.Tasks(user) == st.Tasks(user)
  {
    forall u, t ensures RecordedAt(st1, now, u, t) { assert RecordedAt(st, now, u, t); }
  }

  // A grant to a user without a long lock in the project keeps every long lock in its user's hash
  // exactly when it spares the user's other locks.
  lemma GrantKeepsRecordedIff(cfg: Config, st: Store, now: Time, timeout: Time, project: Id, user: Id, row: Candidate)
    requires Recorded(st, now) && NoneLong(cfg, st, now, project, user)
    requires row.task in cfg.tasks && cfg.tasks[row.task].project == project
    ensures var r := Grant(st, now, timeout, project, user, row);
            && (Recorded(r.store, now) <==> (r.granted ==> GrantSpares(st, now, timeout, user, row.task)))
            && (!r.granted ==> r.store.Tasks(user) == st.Tasks(user))
  {
    GrantEffect(st, now, timeout, project, user, row);
    var st1 := Grant(st, now, timeout, project, user, row).store;
    if Granted(st, now, timeout, user, row) {
      GrantedKeepsRecordedIff(cfg, st, st1, now, timeout, project, user, row);
    } else {
      RefusedKeepsRecorded(st, st1, now, timeout, project, user, row);
    }
  }

  // A lock that the grant does not spare is still long when the user's hash is gone.
  lemma UnsparedIsForgotten(st: Store, now: Time, timeout: Time, project: Id, user: Id, row: Candidate, task: Id)
    returns (later: Time)
    requires Granted(st, now, timeout, user, row) && row.task !in Sweep(st.Tasks(user), now) && task != row.task
    requires timeout > 0.0 && Long(st.Users(task), user, now)
    requires now + timeout < st.Users(task)[user] - REUSE_LOCK_SECONDS
    requires Records.Lasts(st, TaskUsers(task), st.Users(task)[user])
    ensures now <= later
    ensures var end := Drop(Grant(st, now, timeout, project, user, row).store, later);
            Long(end.Users(task), user, later) && end.Tasks(user) == map[]
  {
    later := (now + timeout + st.Users(task)[user] - REUSE_LOCK_SECONDS) / 2.0;
    GrantEffect(st, now, timeout, project, user, row);
    DropEffect(Grant(st, now, timeout, project, user, row).store, later);
    assert IsLapsed(Grant(st, now, timeout, project, user, row).store, later, UserTasks(user));
  }

  /** ---- Requests ---- */

  // The candidate that is granted, if any, spares the user's other locks.
  ghost predicate RowsSpare(st: Store, now: Time, timeout: Time, project: Id, user: Id, rows: seq<Candidate>)
    decreases |rows|
  {
    rows != [] ==>
      var first := Grant(st, now, timeout, project, user, rows[0]);
      if first.granted then GrantSpares(st, now, timeout, user, rows[0].task)
      else RowsSpare(first.store, now, timeout, project, user, rows[1..])
  }

  lemma {:induction false} FirstGrantKeepsRecordedIff(cfg: Config, st: Store, now: Time, timeout: Time, project: Id,
                                                      user: Id, rows: seq<Candidate>)
    requires Recorded(st, now) && NoneLong(cfg, st, now, project, user) && Listing.RowsOf(cfg, project, rows)
    ensures Recorded(FirstGrant(st, now, timeout, project, user, rows).store, now) <==>
              RowsSpare(st, now, timeout, project, user, rows)
    decreases |rows|
  {
    if rows != [] {
      GrantKeepsRecordedIff(cfg, st, now, timeout, project, user, rows[0]);
      var first := Grant(st, now, timeout, project, user, rows[0]);
      if !first.granted {
        FirstGrantKeepsRecordedIff(cfg, first.store, now, timeout, project, user, rows[1..]);
      }
    }
  }

  lemma {:induction false} FirstGrantKeepsOneLong(cfg: Config, st: Store, now: Time, timeout: Time, project: Id,
                                                  user: Id, rows: seq<Candidate>)
    requires OneLong(cfg, st, now) && NoneLong(cfg, st, now, project, user) && Listing.RowsOf(cfg, project, rows)
    ensures OneLong(cfg, FirstGrant(st, now, timeout, project, user, rows).store, now)
    decreases |rows|
  {
    if rows != [] {
      GrantEffect(st, now, timeout, project, user, rows[0]);
      var first := Grant(st, now, timeout, project, user, rows[0]);
      GrantedKeepsOneLong(cfg, st, first.store, now, timeout, project, user, rows[0]);
      if !first.granted {
        assert first.store.Tasks(user) == st.Tasks(user);
        FirstGrantKeepsOneLong(cfg, first.store, now, timeout, project, user, rows[1..]);
      }
    }
  }

  // No user's hash gained or changed an entry that has not expired, no hash of a user with such an
  // entry is kept for less long, and no lock came up.
  lemma PurgedKeepsRecorded(cfg: Config, st: Store, st1: Store, now: Time, key: Key)
    requires Recorded(st, now) && OneLong(cfg, st, now) && Purges(st, st1, now, key)
    ensures Recorded(st1, now) && OneLong(cfg, st1, now)
  {
    forall u, t ensures RecordedAt(st1, now, u, t) { assert RecordedAt(st, now, u, t); }
    forall u, t1, t2 ensures NotBothLong(cfg, st1, now, u, t1, t2) { assert NotBothLong(cfg, st, now, u, t1, t2); }
  }

  lemma PurgeKeepsRecorded(cfg: Config, st: Store, now: Time, key: Key)
    requires Recorded(st, now) && OneLong(cfg, st, now)
    ensures Recorded(Purge(st, now, key), now) && OneLong(cfg, Purge(st, now, key), now)
  {
    PurgeEffect(st, now, key);
    PurgedKeepsRecorded(cfg, st, Purge(st, now, key), now, key);
  }

  lemma RememberKeepsRecorded(cfg: Config, st: Store, now: Time, user: Id)
    requires Recorded(st, now) && OneLong(cfg, st, now)
    ensures Recorded(Remember(cfg, st, now, user), now) && OneLong(cfg, Remember(cfg, st, now, user), now)
  {
    var st1 := Remember(cfg, st, now, user);
    forall u, t ensures RecordedAt(st1, now, u, t) { assert RecordedAt(st, now, u, t); }
    forall u, t1, t2 ensures NotBothLong(cfg, st1, now, u, t1, t2) { assert NotBothLong(cfg, st, now, u, t1, t2); }
  }

  // Where the scheduler does not hand a held task out again, no lock of the project is long.
  lemma NotHandedOut(cfg: Config, s: System, step: Step)
    requires Enabled(cfg, s, step) && step.Request? && !step.saved && !Listing.HandsOut(s, step)
    ensures NoneLong(cfg, Listing.Ready(cfg, s.store, s.clock, step.project, step.user, false), s.clock, step.project, step.user)
  {
    PurgeEffect(Remember(cfg, s.store, s.clock, step.user), s.clock, ActiveUsers(Decoded(step.project)));
    var st := Listing.Ready(cfg, s.store, s.clock, step.project, step.user, false);
    assert st.Tasks(step.user) == s.store.Tasks(step.user);
    forall t | t in cfg.tasks && cfg.tasks[t].project == step.project ensures !Long(st.Tasks(step.user), t, s.clock) {
      if t in s.store.Tasks(step.user) { assert t in ProjectTasks(cfg, s.store, step.project, step.user); }
    }
  }

  ghost predicate RequestSpares(cfg: Config, s: System, step: Step)
    requires step.Request?
  {
    Listing.HandsOut(s, step) ||
    RowsSpare(Listing.Ready(cfg, s.store, s.clock, step.project, step.user, step.saved), s.clock,
              step.timeout, step.project, step.user, step.rows)
  }

  lemma RequestKeepsOneLong(cfg: Config, s: System, step: Step)
    requires Recorded(s.store, s.clock) && OneLong(cfg, s.store, s.clock)
    requires Enabled(cfg, s, step) && step.Request? && !step.saved
    ensures OneLong(cfg, Next(cfg, s, step).store, s.clock)
    ensures Recorded(Next(cfg, s, step).store, s.clock) <==> RequestSpares(cfg, s, step)
  {
    RememberKeepsRecorded(cfg, s.store, s.clock, step.user);
    if !Listing.HandsOut(s, step) {
      var st := Listing.Ready(cfg, s.store, s.clock, step.project, step.user, false);
      PurgeKeepsRecorded(cfg, Remember(cfg, s.store, s.clock, step.user), s.clock, ActiveUsers(Decoded(step.project)));
      NotHandedOut(cfg, s, step);
      Listing.RowsAreOfProject(cfg, s, step);
      FirstGrantKeepsOneLong(cfg, st, s.clock, step.timeout, step.project, step.user, step.rows);
      FirstGrantKeepsRecordedIff(cfg, st, s.clock, step.timeout, step.project, step.user, step.rows);
    }
  }

  // What a release leaves of a lock is the grace period, which is not long.
  lemma ReleasedKeepsRecorded(cfg: Config, st: Store, st1: Store, now: Time, task: Id, user: Id, name: ProjectName)
    requires Recorded(st, now) && OneLong(cfg, st, now) && Releases(st, st1, now, task, user, name)
    ensures Recorded(st1, now) && OneLong(cfg, st1, now)
  {
    forall u, t ensures RecordedAt(st1, now, u, t) { assert RecordedAt(st, now, u, t); }
    forall u, t1, t2 ensures NotBothLong(cfg, st1, now, u, t1, t2) { assert NotBothLong(cfg, st, now, u, t1, t2); }
  }

  lemma ReleaseKeepsRecorded(cfg: Config, st: Store, now: Time, task: Id, user: Id)
    requires Recorded(st, now) && OneLong(cfg, st, now)
    ensures Recorded(ReleaseLock(st, now, task, user), now) && OneLong(cfg, ReleaseLock(st, now, task, user), now)
  {
    ReleaseLockEffect(st, now, task, user);
    ReleasedKeepsRecorded(cfg, st, ReleaseLock(st, now, task, user), now, task, user, Raw(st.OwnerOf(task, now)));
  }

  lemma DropKeepsRecorded(cfg: Config, st: Store, now: Time, later: Time)
    requires Recorded(st, now) && OneLong(cfg, st, now) && later >= now
    ensures Recorded(Drop(st, later), later) && OneLong(cfg, Drop(st, later), later)
  {
    DropEffect(st, later);
    var st1 := Drop(st, later);
    forall u, t ensures RecordedAt(st1, later, u, t) { assert RecordedAt(st, now, u, t); }
    forall u, t1, t2 ensures NotBothLong(cfg, st1, later, u, t1, t2) { assert NotBothLong(cfg, st, now, u, t1, t2); }
  }

  /** ---- Over whole runs ---- */

  // No task asked for directly, and no request for saved tasks.
  predicate Ordinary(step: Step) {
    !step.DirectRequest? && (step.Request? ==> !step.saved)
  }

  ghost predicate StepSpares(cfg: Config, s: System, step: Step) {
    step.Request? ==> RequestSpares(cfg, s, step)
  }

  // Every grant of the run spares the user's other locks.
  ghost predicate AllSpare(cfg: Config, s: System, steps: seq<Step>)
    requires Possible(cfg, s, steps)
    decreases |steps|
  {
    steps != [] ==> StepSpares(cfg, s, steps[0]) && AllSpare(cfg, Next(cfg, s, steps[0]), steps[1..])
  }

  lemma StepKeepsRecordedIff(cfg: Config, s: System, step: Step)
    requires Recorded(s.store, s.clock) && OneLong(cfg, s.store, s.clock)
    requires Enabled(cfg, s, step) && Ordinary(step)
    ensures var s1 := Next(cfg, s, step);
            OneLong(cfg, s1.store, s1.clock) && (Recorded(s1.store, s1.clock) <==> StepSpares(cfg, s, step))
  {
    match step
    case Request(_, _, _, _, _, _) => RequestKeepsOneLong(cfg, s, step);
    case Submit(user, task) => ReleaseKeepsRecorded(cfg, s.store, s.clock, task, user);
    case Cancel(user, task) => ReleaseKeepsRecorded(cfg, s.store, s.clock, task, user);
    case Expunge(key) => PurgeKeepsRecorded(cfg, s.store, s.clock, key);
    case Tick(elapsed) => DropKeepsRecorded(cfg, s.store, s.clock, s.clock + elapsed);
  }

  lemma {:induction false} RunKeepsRecorded(cfg: Config, s: System, steps: seq<Step>)
    requires Recorded(s.store, s.clock) && OneLong(cfg, s.store, s.clock)
    requires Possible(cfg, s, steps) && AllSpare(cfg, s, steps)
    requires forall i | 0 <= i < |steps| :: Ordinary(steps[i])
    ensures var end := After(cfg, s, steps); Recorded(end.store, end.clock) && OneLong(cfg, end.store, end.clock)
    decreases |steps|
  {
    if steps != [] {
      StepKeepsRecordedIff(cfg, s, steps[0]);
      RunKeepsRecorded(cfg, Next(cfg, s, steps[0]), steps[1..]);
    }
  }

  lemma InitiallyRecorded(cfg: Config, s: System)
    requires Initial(s)
    ensures Recorded(s.store, s.clock) && OneLong(cfg, s.store, s.clock)
  {
  }

  // Over every run of ordinary steps whose grants spare the user's other locks, a user never holds two
  // tasks of one project with more than ten seconds left on both.
  lemma OneTaskAtATime(cfg: Config, s: System, steps: seq<Step>, user: Id, t1: Id, t2: Id)
    requires Initial(s) && Possible(cfg, s, steps) && AllSpare(cfg, s, steps)
    requires forall i | 0 <= i < |steps| :: Ordinary(steps[i])
    requires t1 != t2 && SameProject(cfg, t1, t2)
    ensures var end := After(cfg, s, steps);
            !(Long(end.store.Users(t1), user, end.clock) && Long(end.store.Users(t2), user, end.clock))
  {
    InitiallyRecorded(cfg, s);
    RunKeepsRecorded(cfg, s, steps);
    var end := After(cfg, s, steps);
    assert RecordedAt(end.store, end.clock, user, t1) && RecordedAt(end.store, end.clock, user, t2);
    assert NotBothLong(cfg, end.store, end.clock, user, t1, t2);
  }

  // Asking again while such a lock is held returns the same task and touches no lock.
  lemma RepeatRequestReturnsHeldTask(cfg: Config, s: System, steps: seq<Step>, step: Step, held: Id)
    requires Initial(s) && Possible(cfg, s, steps) && AllSpare(cfg, s, steps)
    requires forall i | 0 <= i < |steps| :: Ordinary(steps[i])
    requires var end := After(cfg, s, steps);
             && Enabled(cfg, end, step) && step.Request? && !step.saved
             && held in cfg.tasks && cfg.tasks[held].project == step.project
             && Long(end.store.Users(held), step.user, end.clock)
    ensures var end := After(cfg, s, steps);
            var again := Schedule(cfg, end.store, end.clock, step.timeout, step.project, step.user, step.saved,
                                  step.best, step.rows);
            && again.task == Some(held)
            && again.store.hashes == end.store.hashes && again.store.deadlines == end.store.deadlines
  {
    InitiallyRecorded(cfg, s);
    RunKeepsRecorded(cfg, s, steps);
    var end := After(cfg, s, steps);
    assert RecordedAt(end.store, end.clock, step.user, held);
    assert held in ProjectTasks(cfg, end.store, step.project, step.user);
    assert NotBothLong(cfg, end.store, end.clock, step.user, held, step.best.value);
  }

  /** ---- One timeout ---- */

  lemma WholeIsSpared(st: Store, now: Time, timeout: Time, user: Id, task: Id)
    requires Records.Whole(st, now, timeout)
    ensures GrantSpares(st, now, timeout, user, task)
  {
    assert Records.WholeAt(st, now, timeout, task, user);
    forall t | Long(st.Users(t), user, now) ensures st.Users(t)[user] - REUSE_LOCK_SECONDS <= now + timeout {
      assert Records.WholeAt(st, now, timeout, t, user);
    }
  }

  lemma {:induction false} WholeRowsSpare(st: Store, now: Time, timeout: Time, project: Id, user: Id, rows: seq<Candidate>)
    requires Records.Whole(st, now, timeout) && timeout > 0.0
    ensures RowsSpare(st, now, timeout, project, user, rows)
    decreases |rows|
  {
    if rows != [] {
      WholeIsSpared(st, now, timeout, user, rows[0].task);
      Records.GrantKeepsWhole(st, now, timeout, project, user, rows[0]);
      var first := Grant(st, now, timeout, project, user, rows[0]);
      if !first.granted { WholeRowsSpare(first.store, now, timeout, project, user, rows[1..]); }
    }
  }

  lemma WholeRequestSpares(cfg: Config, s: System, timeout: Time, step: Step)
    requires Records.Whole(s.store, s.clock, timeout) && timeout > 0.0 && step.Request? && step.timeout == timeout
    ensures RequestSpares(cfg, s, step)
  {
    Records.RememberKeepsWhole(cfg, s.store, s.clock, timeout, step.user);
    var st1 := if step.saved then s.store else Remember(cfg, s.store, s.clock, step.user);
    Records.PurgeKeepsWhole(st1, s.clock, timeout, ActiveUsers(Decoded(step.project)));
    WholeRowsSpare(Listing.Ready(cfg, s.store, s.clock, step.project, step.user, step.saved), s.clock,
                   timeout, step.project, step.user, step.rows);
  }

  lemma {:induction false} RegularFromSpares(cfg: Config, s: System, timeout: Time, steps: seq<Step>)
    requires Records.Whole(s.store, s.clock, timeout) && timeout >= EXPIRE_LOCK_DELAY
    requires Possible(cfg, s, steps) && Records.AllRegular(cfg, s, timeout, steps)
    ensures AllSpare(cfg, s, steps)
    decreases |steps|
  {
    if steps != [] {
      if steps[0].Request? { WholeRequestSpares(cfg, s, timeout, steps[0]); }
      Records.StepKeepsWhole(cfg, s, timeout, steps[0]);
      RegularFromSpares(cfg, Next(cfg, s, steps[0]), timeout, steps[1..]);
    }
  }

  // With one timeout for all projects, and releases that leave both hashes the grace period, every
  // grant spares the user's other locks.
  lemma RegularRunsSpare(cfg: Config, s: System, timeout: Time, steps: seq<Step>)
    requires Initial(s) && timeout >= EXPIRE_LOCK_DELAY
    requires Possible(cfg, s, steps) && Records.AllRegular(cfg, s, timeout, steps)
    ensures AllSpare(cfg, s, steps)
  {
    Records.InitiallyWhole(s, timeout);
    RegularFromSpares(cfg, s, timeout, steps);
  }

  /** ---- A run in which a user gets two tasks ---- */

  // In the run of two projects with different timeouts, user 1 is granted task 3 at 80 beside task 1.
  lemma TwoTasksAtOnce(cfg: Config, s: System) returns (steps: seq<Step>)
    requires LostLocks.TwoProjects(cfg) && s.clock == 0.0 && Initial(s)
    ensures SameProject(cfg, 1, 3) && Possible(cfg, s, steps)
    ensures forall i | 0 <= i < |steps| :: LostLocks.Plain(steps[i], LostLocks.NoRelease)
    ensures var end := After(cfg, s, steps);
            Long(end.store.Users(1), 1, end.clock) && Long(end.store.Users(3), 1, end.clock)
  {
    var end := LostLocks.ForgottenIsGrantedTwice(cfg, s);
    steps :| LostLocks.LeadsBy(cfg, s, end, LostLocks.NoRelease, steps);
  }
}
