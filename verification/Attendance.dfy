/**
 Runs in which the listing of locked tasks is exact throughout: one timeout for all projects,
 and releases that come five seconds before anything recorded about the lock ends.
 */
module Attendance {
  import opened Options
  import opened LockTable
  import opened LockStore
  import opened LockSystem
  import Listing
  import Records

  // The user is active in the task's project until then, and the hash of active users is kept.
  predicate Attends(cfg: Config, st: Store, user: Id, task: Id, until: Time)
    requires task in cfg.tasks
  {
    var project := cfg.tasks[task].project;
    && user in st.Active(project) && st.Active(project)[user] >= until
    && Records.Lasts(st, ActiveUsers(Decoded(project)), until)
  }

  predicate AttendedAt(cfg: Config, st: Store, now: Time, task: Id, user: Id) {
    task in cfg.tasks && Records.Live(st.Tasks(user), task, now) ==> Attends(cfg, st, user, task, st.Tasks(user)[task])
  }

  // While a user's entry for a task lives the user is active in the task's project.
  ghost predicate Attended(cfg: Config, st: Store, now: Time) {
    forall t, u :: AttendedAt(cfg, st, now, t, u)
  }

  lemma AttendedIsIndexed(cfg: Config, st: Store, now: Time, timeout: Time)
    requires Records.Whole(st, now, timeout) && Attended(cfg, st, now)
    ensures Listing.Indexed(cfg, st, now)
  {
    forall u, t ensures Listing.Sound(cfg, st, now, u, t) {
      assert Records.WholeAt(st, now, timeout, t, u) && AttendedAt(cfg, st, now, t, u);
    }
  }

  /** ---- What each step keeps ---- */

  lemma GrantedKeepsAttendedAt(cfg: Config, st: Store, st1: Store, now: Time, timeout: Time, project: Id, user: Id,
                               row: Candidate, t: Id, u: Id)
    requires Records.WholeAt(st, now, timeout, t, u) && AttendedAt(cfg, st, now, t, u) && timeout > 0.0
    requires row.task in cfg.tasks && cfg.tasks[row.task].project == project
    requires Grants(st, st1, now, timeout, project, user, row)
    ensures AttendedAt(cfg, st1, now, t, u)
  {
  }

  lemma GrantKeepsAttended(cfg: Config, st: Store, now: Time, timeout: Time, project: Id, user: Id, row: Candidate)
    requires Records.Whole(st, now, timeout) && Attended(cfg, st, now) && timeout > 0.0
    requires row.task in cfg.tasks && cfg.tasks[row.task].project == project
    ensures Attended(cfg, Grant(st, now, timeout, project, user, row).store, now)
  {
    GrantEffect(st, now, timeout, project, user, row);
    var st1 := Grant(st, now, timeout, project, user, row).store;
    forall t, u ensures AttendedAt(cfg, st1, now, t, u) {
      assert Records.WholeAt(st, now, timeout, t, u) && AttendedAt(cfg, st, now, t, u);
      GrantedKeepsAttendedAt(cfg, st, st1, now, timeout, project, user, row, t, u);
    }
  }

  lemma {:induction false} FirstGrantKeepsAttended(cfg: Config, st: Store, now: Time, timeout: Time, project: Id, user: Id,
                                                   rows: seq<Candidate>)
    requires Records.Whole(st, now, timeout) && Attended(cfg, st, now) && timeout > 0.0
    requires Listing.RowsOf(cfg, project, rows)
    ensures Attended(cfg, FirstGrant(st, now, timeout, project, user, rows).store, now)
    decreases |rows|
  {
    if rows != [] {
      GrantKeepsAttended(cfg, st, now, timeout, project, user, rows[0]);
      Records.GrantKeepsWhole(st, now, timeout, project, user, rows[0]);
      var first := Grant(st, now, timeout, project, user, rows[0]);
      if !first.granted { FirstGrantKeepsAttended(cfg, first.store, now, timeout, project, user, rows[1..]); }
    }
  }

  lemma PurgeKeepsAttended(cfg: Config, st: Store, now: Time, key: Key)
    requires Attended(cfg, st, now)
    ensures Attended(cfg, Purge(st, now, key), now)
  {
    PurgeEffect(st, now, key);
    forall t, u ensures AttendedAt(cfg, Purge(st, now, key), now, t, u) { assert AttendedAt(cfg, st, now, t, u); }
  }

  lemma DropKeepsAttended(cfg: Config, st: Store, now: Time, later: Time)
    requires Attended(cfg, st, now) && now <= later
    ensures Attended(cfg, Drop(st, later), later)
  {
    DropEffect(st, later);
    forall t, u ensures AttendedAt(cfg, Drop(st, later), later, t, u) { assert AttendedAt(cfg, st, now, t, u); }
  }

  lemma RememberKeepsAttended(cfg: Config, st: Store, now: Time, user: Id)
    requires Attended(cfg, st, now)
    ensures Attended(cfg, Remember(cfg, st, now, user), now)
  {
    forall t, u ensures AttendedAt(cfg, Remember(cfg, st, now, user), now, t, u) { assert AttendedAt(cfg, st, now, t, u); }
  }

  lemma ReleaseKeepsAttended(cfg: Config, st: Store, now: Time, task: Id, user: Id)
    requires Attended(cfg, st, now) && task in cfg.tasks && Attends(cfg, st, user, task, now + EXPIRE_LOCK_DELAY)
    ensures Attended(cfg, ReleaseLock(st, now, task, user), now)
  {
    ReleaseLockEffect(st, now, task, user);
    forall t, u ensures AttendedAt(cfg, ReleaseLock(st, now, task, user), now, t, u) { assert AttendedAt(cfg, st, now, t, u); }
  }

  lemma RequestKeepsAttended(cfg: Config, s: System, timeout: Time, step: Step)
    requires Records.Whole(s.store, s.clock, timeout) && Attended(cfg, s.store, s.clock)
    requires Enabled(cfg, s, step) && step.Request? && step.timeout == timeout
    ensures Attended(cfg, Next(cfg, s, step).store, s.clock)
  {
    var key := ActiveUsers(Decoded(step.project));
    Listing.RowsAreOfProject(cfg, s, step);
    RememberKeepsAttended(cfg, s.store, s.clock, step.user);
    Records.RememberKeepsWhole(cfg, s.store, s.clock, timeout, step.user);
    var st1 := if step.saved then s.store else Remember(cfg, s.store, s.clock, step.user);
    PurgeKeepsAttended(cfg, st1, s.clock, key);
    Records.PurgeKeepsWhole(st1, s.clock, timeout, key);
    FirstGrantKeepsAttended(cfg, Purge(st1, s.clock, key), s.clock, timeout, step.project, step.user, step.rows);
  }

  lemma DirectRequestKeepsAttended(cfg: Config, s: System, timeout: Time, step: Step)
    requires Records.Whole(s.store, s.clock, timeout) && Attended(cfg, s.store, s.clock)
    requires Enabled(cfg, s, step) && step.DirectRequest? && step.timeout == timeout
    ensures Attended(cfg, Next(cfg, s, step).store, s.clock)
  {
    GrantKeepsAttended(cfg, s.store, s.clock, timeout, cfg.tasks[step.task].project, step.user, Listing.DirectRow(cfg, s, step));
  }

  /** ---- Over whole runs ---- */

  // Locks are taken for this time, and what is recorded about a lock outlasts its grace period.
  predicate Regular(cfg: Config, s: System, timeout: Time, step: Step) {
    && Records.Regular(s, timeout, step)
    && (step.Submit? && step.task in cfg.tasks ==> Attends(cfg, s.store, step.user, step.task, s.clock + EXPIRE_LOCK_DELAY))
    && (step.Cancel? && step.task in cfg.tasks ==> Attends(cfg, s.store, step.user, step.task, s.clock + EXPIRE_LOCK_DELAY))
  }

  ghost predicate AllRegular(cfg: Config, s: System, timeout: Time, steps: seq<Step>)
    requires Possible(cfg, s, steps)
    decreases |steps|
  {
    steps != [] ==> Regular(cfg, s, timeout, steps[0]) && AllRegular(cfg, Next(cfg, s, steps[0]), timeout, steps[1..])
  }

  lemma StepKeepsAttended(cfg: Config, s: System, timeout: Time, step: Step)
    requires Records.Whole(s.store, s.clock, timeout) && Attended(cfg, s.store, s.clock)
    requires Enabled(cfg, s, step) && Regular(cfg, s, timeout, step)
    ensures var s1 := Next(cfg, s, step); Attended(cfg, s1.store, s1.clock)
  {
    match step
    case Request(_, _, _, _, _, _) => RequestKeepsAttended(cfg, s, timeout, step);
    case DirectRequest(_, _, _, _) => DirectRequestKeepsAttended(cfg, s, timeout, step);
    case Submit(user, task) => ReleaseKeepsAttended(cfg, s.store, s.clock, task, user);
    case Cancel(user, task) => ReleaseKeepsAttended(cfg, s.store, s.clock, task, user);
    case Expunge(key) => PurgeKeepsAttended(cfg, s.store, s.clock, key);
    case Tick(elapsed) => DropKeepsAttended(cfg, s.store, s.clock, s.clock + elapsed);
  }

  lemma {:induction false} RegularFromIsExact(cfg: Config, s: System, timeout: Time, steps: seq<Step>)
    requires Records.Whole(s.store, s.clock, timeout) && Attended(cfg, s.store, s.clock)
    requires Listing.Consistent(cfg, s.store, s.clock) && timeout >= EXPIRE_LOCK_DELAY
    requires Possible(cfg, s, steps) && AllRegular(cfg, s, timeout, steps)
    ensures Listing.AlwaysExact(cfg, s, steps)
    decreases |steps|
  {
    AttendedIsIndexed(cfg, s.store, s.clock, timeout);
    Listing.IndexedStaysExact(cfg, s.store, s.clock);
    if steps != [] {
      Records.StepKeepsWhole(cfg, s, timeout, steps[0]);
      StepKeepsAttended(cfg, s, timeout, steps[0]);
      Listing.StepKeepsConsistent(cfg, s, steps[0]);
      RegularFromIsExact(cfg, Next(cfg, s, steps[0]), timeout, steps[1..]);
    }
  }

  // In a run with one timeout whose releases come early enough the listing is exact throughout.
  lemma RegularRunsAreExact(cfg: Config, s: System, timeout: Time, steps: seq<Step>)
    requires Initial(s) && timeout >= EXPIRE_LOCK_DELAY
    requires Possible(cfg, s, steps) && AllRegular(cfg, s, timeout, steps)
    ensures Listing.AlwaysExact(cfg, s, steps) && Listing.AllCovered(cfg, s, steps)
  {
    Records.InitiallyWhole(s, timeout);
    Listing.InitiallyIndexed(cfg, s);
    forall t, u ensures AttendedAt(cfg, s.store, s.clock, t, u) {}
    RegularFromIsExact(cfg, s, timeout, steps);
    Listing.AlwaysExactIff(cfg, s, steps);
  }
}
