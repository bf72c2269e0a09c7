/**
 A task never has more claimants than answers wanted, whatever the replica lag, as long as
 each submission leaves its task's hash the time that the grace entry needs.
 */
module Capacity {
  import Sets
  import opened Options
  import opened LockTable
  import opened LockStore
  import opened LockSystem

  // A hash with this deadline is there for as long as a submission may be missed.
  ghost predicate Sheltered(lease: Option<Time>, runs: Runs, clock: Time) {
    forall u | u in runs && clock <= runs[u] + EXPIRE_LOCK_DELAY :: lease.Some? ==> lease.value >= runs[u] + EXPIRE_LOCK_DELAY
  }

  // Submissions and outstanding locks of a task together stay within the answers wanted, and
  // every submission that a replica may still miss is covered by a grace entry that lasts.
  ghost predicate Within(task: Task, users: Table, lease: Option<Time>, runs: Runs, clock: Time) {
    && (forall u | u in runs :: runs[u] <= clock)
    && (!task.gold ==> WithinAnswers(users, runs, clock, task.answers) && Sheltered(lease, runs, clock))
  }

  ghost predicate TaskWithin(cfg: Config, s: System, task: Id)
    requires task in cfg.tasks
  {
    Within(cfg.tasks[task], s.store.Users(task), s.store.Lease(TaskUsers(task)), s.RunsOf(task), s.clock)
  }

  ghost predicate Invariant(cfg: Config, s: System) {
    forall t | t in cfg.tasks :: TaskWithin(cfg, s, t)
  }

  // The task's hash outlives the grace period of a release made now.
  predicate LeavesGrace(s: System, task: Id) {
    var lease := s.store.Lease(TaskUsers(task));
    lease.Some? ==> lease.value >= s.clock + EXPIRE_LOCK_DELAY
  }

  // Submissions leave the grace period, and locks are taken for that long at least.
  predicate TimelyStep(cfg: Config, s: System, step: Step) {
    match step
    case Request(_, timeout, _, _, _, _) => timeout >= EXPIRE_LOCK_DELAY
    case DirectRequest(timeout, _, _, _) => timeout >= EXPIRE_LOCK_DELAY
    case Submit(_, task) => task in cfg.tasks && !cfg.tasks[task].gold ==> LeavesGrace(s, task)
    case _ => true
  }

  ghost predicate Timely(cfg: Config, s: System, steps: seq<Step>)
    requires Possible(cfg, s, steps)
    decreases |steps|
  {
    steps != [] ==> TimelyStep(cfg, s, steps[0]) && Timely(cfg, Next(cfg, s, steps[0]), steps[1..])
  }

  // The users of the other tasks are as they were.
  ghost predicate SameUsersBut(st: Store, st1: Store, task: Id) {
    forall k: Key | k.TaskUsers? && k.task != task :: st1.Entries(k) == st.Entries(k) && st1.Lease(k) == st.Lease(k)
  }

  // Only the users of one task changed, and they are still within its capacity.
  lemma OneTableChanged(cfg: Config, s: System, s1: System, task: Id)
    requires Invariant(cfg, s) && s1.clock == s.clock
    requires SameUsersBut(s.store, s1.store, task)
    requires forall t | t != task :: s1.RunsOf(t) == s.RunsOf(t)
    requires task in cfg.tasks ==> TaskWithin(cfg, s1, task)
    ensures Invariant(cfg, s1)
  {
    forall t | t in cfg.tasks ensures TaskWithin(cfg, s1, t) {
      if t != task {
        assert TaskUsers(t).task != task;
        assert TaskWithin(cfg, s, t);
      }
    }
  }

  // A new entry brings its own deadline, which is late enough for every grace entry.
  lemma AcquireKeepsWithin(task: Task, users: Table, lease: Option<Time>, runs: Runs, clock: Time,
                           timeout: Time, user: Id, row: Candidate)
    requires Within(task, users, lease, runs, clock) && timeout >= EXPIRE_LOCK_DELAY
    requires row.answers == task.answers && row.calibration == task.gold
    requires row.taskCount >= |Settled(runs, clock)|
    ensures Within(task, Acquire(users, clock, timeout, user, Remaining(row), row.gotMutex).table,
                   LeaseAfter(users, lease, clock, timeout, user, Remaining(row), row.gotMutex), runs, clock)
  {
    if !row.calibration {
      AcquireKeepsCapacity(users, runs, clock, timeout, user, row.taskCount, row.answers, row.gotMutex);
    }
  }

  lemma GrantsChangesOneTask(st: Store, st1: Store, now: Time, timeout: Time, project: Id, user: Id, row: Candidate)
    requires Grants(st, st1, now, timeout, project, user, row)
    ensures SameUsersBut(st, st1, row.task)
    ensures AcquiredIn(st, st1, TaskUsers(row.task), now, timeout, user, Remaining(row), row.gotMutex)
  {
  }

  lemma GrantedKeepsInvariant(cfg: Config, s: System, st1: Store, timeout: Time, project: Id, user: Id, row: Candidate)
    requires Invariant(cfg, s) && Current(cfg, s, project, row) && timeout >= EXPIRE_LOCK_DELAY
    requires SameUsersBut(s.store, st1, row.task)
    requires AcquiredIn(s.store, st1, TaskUsers(row.task), s.clock, timeout, user, Remaining(row), row.gotMutex)
    ensures Invariant(cfg, s.(store := st1))
  {
    assert TaskWithin(cfg, s, row.task);
    AcquireKeepsWithin(cfg.tasks[row.task], s.store.Users(row.task), s.store.Lease(TaskUsers(row.task)),
                       s.RunsOf(row.task), s.clock, timeout, user, row);
    OneTableChanged(cfg, s, s.(store := st1), row.task);
  }

  lemma GrantKeepsInvariant(cfg: Config, s: System, timeout: Time, project: Id, user: Id, row: Candidate)
    requires Invariant(cfg, s) && Current(cfg, s, project, row) && timeout >= EXPIRE_LOCK_DELAY
    ensures Invariant(cfg, s.(store := Grant(s.store, s.clock, timeout, project, user, row).store))
  {
    GrantEffect(s.store, s.clock, timeout, project, user, row);
    var st1 := Grant(s.store, s.clock, timeout, project, user, row).store;
    GrantsChangesOneTask(s.store, st1, s.clock, timeout, project, user, row);
    GrantedKeepsInvariant(cfg, s, st1, timeout, project, user, row);
  }

  lemma {:induction false} FirstGrantKeepsInvariant(cfg: Config, s: System, timeout: Time, project: Id, user: Id,
                                                    rows: seq<Candidate>)
    requires Invariant(cfg, s) && timeout >= EXPIRE_LOCK_DELAY
    requires forall i | 0 <= i < |rows| :: Current(cfg, s, project, rows[i])
    ensures Invariant(cfg, s.(store := FirstGrant(s.store, s.clock, timeout, project, user, rows).store))
    decreases |rows|
  {
    if rows != [] {
      GrantKeepsInvariant(cfg, s, timeout, project, user, rows[0]);
      var first := Grant(s.store, s.clock, timeout, project, user, rows[0]);
      if !first.granted {
        var s1 := s.(store := first.store);
        forall i | 0 <= i < |rows[1..]| ensures Current(cfg, s1, project, rows[1..][i]) {
          assert Current(cfg, s, project, rows[i + 1]);
        }
        FirstGrantKeepsInvariant(cfg, s1, timeout, project, user, rows[1..]);
      }
    }
  }

  lemma SweepKeepsWithin(task: Task, users: Table, lease: Option<Time>, runs: Runs, clock: Time)
    requires Within(task, users, lease, runs, clock)
    ensures Within(task, Sweep(users, clock), if Sweep(users, clock) == map[] then None else lease, runs, clock)
  {
    if !task.gold { SweepKeepsCapacity(users, runs, clock, task.answers); }
  }

  lemma PurgedKeepsInvariant(cfg: Config, s: System, st1: Store, key: Key)
    requires Invariant(cfg, s) && Purges(s.store, st1, s.clock, key)
    ensures Invariant(cfg, s.(store := st1))
  {
    forall t | t in cfg.tasks ensures TaskWithin(cfg, s.(store := st1), t) {
      assert TaskWithin(cfg, s, t);
      SweepKeepsWithin(cfg.tasks[t], s.store.Users(t), s.store.Lease(TaskUsers(t)), s.RunsOf(t), s.clock);
    }
  }

  lemma PurgeKeepsInvariant(cfg: Config, s: System, key: Key)
    requires Invariant(cfg, s)
    ensures Invariant(cfg, s.(store := Purge(s.store, s.clock, key)))
  {
    PurgeEffect(s.store, s.clock, key);
    PurgedKeepsInvariant(cfg, s, Purge(s.store, s.clock, key), key);
  }

  lemma ReleaseKeepsCapacityIfLimited(task: Task, users: Table, runs: Runs, clock: Time, user: Id)
    requires user in users && (user in runs ==> runs[user] <= clock)
    requires !task.gold ==> WithinAnswers(users, runs, clock, task.answers)
    ensures !task.gold ==> WithinAnswers(Release(users, user, clock), runs, clock, task.answers)
  {
    if !task.gold { ReleaseKeepsCapacity(users, runs, clock, user); }
  }

  // A submission keeps the task within its capacity exactly when the grace entry lasts.
  lemma SubmissionKeepsWithinIff(task: Task, users: Table, lease: Option<Time>, runs: Runs, clock: Time, user: Id)
    requires Within(task, users, lease, runs, clock) && user in users && user !in runs && !task.gold
    ensures Within(task, Release(users, user, clock), lease, runs[user := clock], clock) <==>
              (lease.Some? ==> lease.value >= clock + EXPIRE_LOCK_DELAY)
  {
    SubmitKeepsCapacity(users, runs, clock, user);
    var after := runs[user := clock];
    assert after[user] == clock;
  }

  lemma ReleasedKeepsInvariant(cfg: Config, s: System, st1: Store, runs: map<Id, Runs>, user: Id, task: Id, name: ProjectName)
    requires Invariant(cfg, s) && task in cfg.tasks
    requires Releases(s.store, st1, s.clock, task, user, name)
    requires forall t | t != task :: s.(runs := runs).RunsOf(t) == s.RunsOf(t)
    requires Within(cfg.tasks[task], Release(s.store.Users(task), user, s.clock), s.store.Lease(TaskUsers(task)),
                    s.(runs := runs).RunsOf(task), s.clock)
    ensures Invariant(cfg, s.(store := st1, runs := runs))
  {
    OneTableChanged(cfg, s, s.(store := st1, runs := runs), task);
  }

  lemma CancelKeepsInvariant(cfg: Config, s: System, step: Step)
    requires Invariant(cfg, s) && Enabled(cfg, s, step) && step.Cancel?
    ensures Invariant(cfg, Next(cfg, s, step))
  {
    var user, task := step.user, step.task;
    assert TaskWithin(cfg, s, task);
    ReleaseKeepsCapacityIfLimited(cfg.tasks[task], s.store.Users(task), s.RunsOf(task), s.clock, user);
    ReleaseLockEffect(s.store, s.clock, task, user);
    ReleasedKeepsInvariant(cfg, s, ReleaseLock(s.store, s.clock, task, user), s.runs, user, task,
                           Raw(s.store.OwnerOf(task, s.clock)));
  }

  lemma SubmitKeepsInvariant(cfg: Config, s: System, step: Step)
    requires Invariant(cfg, s) && Enabled(cfg, s, step) && step.Submit? && TimelyStep(cfg, s, step)
    ensures Invariant(cfg, Next(cfg, s, step))
  {
    var user, task := step.user, step.task;
    assert TaskWithin(cfg, s, task);
    if !cfg.tasks[task].gold {
      SubmissionKeepsWithinIff(cfg.tasks[task], s.store.Users(task), s.store.Lease(TaskUsers(task)),
                               s.RunsOf(task), s.clock, user);
    }
    ReleaseLockEffect(s.store, s.clock, task, user);
    ReleasedKeepsInvariant(cfg, s, ReleaseLock(s.store, s.clock, task, user),
                           s.runs[task := s.RunsOf(task)[user := s.clock]], user, task, Raw(s.store.OwnerOf(task, s.clock)));
  }

  lemma RequestKeepsInvariant(cfg: Config, s: System, step: Step)
    requires Invariant(cfg, s) && Enabled(cfg, s, step) && step.Request? && TimelyStep(cfg, s, step)
    ensures Invariant(cfg, Next(cfg, s, step))
  {
    var s1 := if step.saved then s else s.(store := Remember(cfg, s.store, s.clock, step.user));
    forall t | t in cfg.tasks ensures TaskWithin(cfg, s1, t) {
      assert TaskWithin(cfg, s, t);
    }
    if step.saved || !Reusable(s.store, s.clock, step.user, step.best) {
      var key := ActiveUsers(Decoded(step.project));
      PurgeKeepsInvariant(cfg, s1, key);
      var s2 := s1.(store := Purge(s1.store, s1.clock, key));
      forall i | 0 <= i < |step.rows| ensures Current(cfg, s2, step.project, step.rows[i]) {
        assert Current(cfg, s, step.project, step.rows[i]);
      }
      FirstGrantKeepsInvariant(cfg, s2, step.timeout, step.project, step.user, step.rows);
      assert Next(cfg, s, step)
          == s2.(store := FirstGrant(s2.store, s2.clock, step.timeout, step.project, step.user, step.rows).store);
    }
  }

  lemma SettledWithinRuns(runs: Runs, now: Time)
    ensures |Settled(runs, now)| <= |runs|
  {
    Sets.SubsetSize(Settled(runs, now), runs.Keys);
    assert |runs.Keys| == |runs|;
  }

  lemma DirectRequestKeepsInvariant(cfg: Config, s: System, step: Step)
    requires Invariant(cfg, s) && Enabled(cfg, s, step) && step.DirectRequest? && TimelyStep(cfg, s, step)
    ensures Invariant(cfg, Next(cfg, s, step))
  {
    var t := cfg.tasks[step.task];
    SettledWithinRuns(s.RunsOf(step.task), s.clock);
    var row := Candidate(step.task, |s.RunsOf(step.task)|, t.answers, t.gold, step.gotMutex);
    GrantKeepsInvariant(cfg, s, step.timeout, t.project, step.user, row);
  }

  // Nothing that still matters is in a hash that Redis drops.
  lemma WaitingKeepsWithin(task: Task, users: Table, lease: Option<Time>, runs: Runs, clock: Time, later: Time)
    requires Within(task, users, lease, runs, clock) && clock <= later
    ensures Within(task, users, lease, runs, later)
    ensures lease.Some? && later > lease.value ==> Within(task, map[], None, runs, later)
  {
    if !task.gold && lease.Some? && later > lease.value {
      FewerClaims(users, map[], runs);
    }
  }

  lemma DroppedKeepsInvariant(cfg: Config, s: System, s1: System)
    requires Invariant(cfg, s) && s.clock <= s1.clock && s1.runs == s.runs && Drops(s.store, s1.store, s1.clock)
    ensures Invariant(cfg, s1)
  {
    forall t | t in cfg.tasks ensures TaskWithin(cfg, s1, t) {
      assert TaskWithin(cfg, s, t);
      WaitingKeepsWithin(cfg.tasks[t], s.store.Users(t), s.store.Lease(TaskUsers(t)), s.RunsOf(t), s.clock, s1.clock);
    }
  }

  lemma TickKeepsInvariant(cfg: Config, s: System, step: Step)
    requires Invariant(cfg, s) && Enabled(cfg, s, step) && step.Tick?
    ensures Invariant(cfg, Next(cfg, s, step))
  {
    DropEffect(s.store, s.clock + step.elapsed);
    DroppedKeepsInvariant(cfg, s, Next(cfg, s, step));
  }

  lemma StepKeepsInvariant(cfg: Config, s: System, step: Step)
    requires Invariant(cfg, s) && Enabled(cfg, s, step) && TimelyStep(cfg, s, step)
    ensures Invariant(cfg, Next(cfg, s, step))
  {
    match step
    case Request(_, _, _, _, _, _) => RequestKeepsInvariant(cfg, s, step);
    case DirectRequest(_, _, _, _) => DirectRequestKeepsInvariant(cfg, s, step);
    case Submit(_, _) => SubmitKeepsInvariant(cfg, s, step);
    case Cancel(_, _) => CancelKeepsInvariant(cfg, s, step);
    case Expunge(key) => PurgeKeepsInvariant(cfg, s, key);
    case Tick(_) => TickKeepsInvariant(cfg, s, step);
  }

  lemma {:induction false} RunKeepsInvariant(cfg: Config, s: System, steps: seq<Step>)
    requires Invariant(cfg, s) && Possible(cfg, s, steps) && Timely(cfg, s, steps)
    ensures Invariant(cfg, After(cfg, s, steps))
    decreases |steps|
  {
    if steps != [] {
      StepKeepsInvariant(cfg, s, steps[0]);
      RunKeepsInvariant(cfg, Next(cfg, s, steps[0]), steps[1..]);
    }
  }

  lemma InitialIsWithin(cfg: Config, s: System)
    requires cfg.Valid() && Initial(s)
    ensures Invariant(cfg, s)
  {
    forall t | t in cfg.tasks ensures TaskWithin(cfg, s, t) {
      assert Claimants(s.store.Users(t), s.RunsOf(t)) == {};
    }
  }

  // More users answered a task or still hold it than answers are wanted.
  ghost predicate OverAssigned(cfg: Config, s: System, task: Id)
    requires task in cfg.tasks
  {
    |s.store.Users(task).Keys + s.RunsOf(task).Keys| > cfg.tasks[task].answers
  }

  // Over every timely run, the users who answered a task and those who still hold it are
  // together no more than the answers wanted.
  lemma NeverOverAssigned(cfg: Config, s: System, steps: seq<Step>, task: Id)
    requires cfg.Valid() && Initial(s) && Possible(cfg, s, steps) && Timely(cfg, s, steps)
    requires task in cfg.tasks && !cfg.tasks[task].gold
    ensures !OverAssigned(cfg, After(cfg, s, steps), task)
    ensures |After(cfg, s, steps).RunsOf(task)| <= cfg.tasks[task].answers
  {
    InitialIsWithin(cfg, s);
    RunKeepsInvariant(cfg, s, steps);
    var end := After(cfg, s, steps);
    assert TaskWithin(cfg, end, task);
    Sets.SubsetSize(end.RunsOf(task).Keys, Claimants(end.store.Users(task), end.RunsOf(task)));
    assert |end.RunsOf(task).Keys| == |end.RunsOf(task)|;
  }

  // The over-answered check on the master database never refuses a user who holds the
  // task and has not answered it: everyone who was given a task may submit it.
  lemma HolderIsNeverRefused(cfg: Config, s: System, steps: seq<Step>, user: Id, task: Id)
    requires cfg.Valid() && Initial(s) && Possible(cfg, s, steps) && Timely(cfg, s, steps)
    requires task in cfg.tasks
    requires var end := After(cfg, s, steps);
             HasLock(end.store.Users(task), user, end.clock) && user !in end.RunsOf(task)
    ensures Enabled(cfg, After(cfg, s, steps), Submit(user, task))
  {
    var end := After(cfg, s, steps);
    if !cfg.tasks[task].gold {
      NeverOverAssigned(cfg, s, steps, task);
      HolderFindsRoom(end.store.Users(task), end.RunsOf(task), user, cfg.tasks[task].answers);
    }
  }

  /** ---- What a late submission leads to ---- */

  // A user without an entry takes the task while its entries leave room beside the settled runs.
  lemma OneMoreIsGranted(st: Store, now: Time, timeout: Time, project: Id, user: Id, row: Candidate)
    requires forall u | u in st.Users(row.task) :: st.Users(row.task)[u] >= now
    requires user !in st.Users(row.task) && row.gotMutex && !row.calibration
    requires |st.Users(row.task)| < row.answers - row.taskCount
    ensures var chosen := FirstGrant(st, now, timeout, project, user, [row]);
            chosen.store.Users(row.task) == st.Users(row.task)[user := now + timeout]
  {
    SweepKeepsLive(st.Users(row.task), now);
    GrantEffect(st, now, timeout, project, user, row);
    assert Granted(st, now, timeout, user, row);
  }

  lemma OneMoreIsChosen(st: Store, now: Time, timeout: Time, project: Id, user: Id, row: Candidate)
    requires forall u | u in st.Users(row.task) :: st.Users(row.task)[u] >= now
    requires user !in st.Users(row.task) && row.gotMutex && !row.calibration
    requires |st.Users(row.task)| < row.answers - row.taskCount
    ensures var chosen := FirstGrant(Purge(st, now, ActiveUsers(Decoded(project))), now, timeout, project, user, [row]);
            chosen.store.Users(row.task) == st.Users(row.task)[user := now + timeout]
  {
    PurgeEffect(st, now, ActiveUsers(Decoded(project)));
    var st1 := Purge(st, now, ActiveUsers(Decoded(project)));
    assert st1.Users(row.task) == st.Users(row.task);
    OneMoreIsGranted(st1, now, timeout, project, user, row);
  }

  // The row of a replica that shows the settled runs alone.
  function LaggingRow(cfg: Config, s: System, task: Id): Candidate
    requires task in cfg.tasks
  {
    Candidate(task, |Settled(s.RunsOf(task), s.clock)|, cfg.tasks[task].answers, cfg.tasks[task].gold, true)
  }

  function Asking(cfg: Config, s: System, task: Id, user: Id): Step
    requires task in cfg.tasks
  {
    Request(cfg.tasks[task].project, 60.0, user, true, None, [LaggingRow(cfg, s, task)])
  }

  lemma AskingIsFirstGrant(cfg: Config, s: System, task: Id, user: Id)
    requires task in cfg.tasks
    ensures Enabled(cfg, s, Asking(cfg, s, task, user))
    ensures var project := cfg.tasks[task].project;
            Next(cfg, s, Asking(cfg, s, task, user))
              == s.(store := FirstGrant(Purge(s.store, s.clock, ActiveUsers(Decoded(project))), s.clock,
                                        60.0, project, user, [LaggingRow(cfg, s, task)]).store)
  {
  }

  lemma OneMoreTakes(cfg: Config, s: System, task: Id, user: Id)
    requires task in cfg.tasks && !cfg.tasks[task].gold
    requires forall u | u in s.store.Users(task) :: s.store.Users(task)[u] >= s.clock
    requires user !in s.store.Users(task)
    requires |s.store.Users(task)| < cfg.tasks[task].answers - |Settled(s.RunsOf(task), s.clock)|
    ensures Enabled(cfg, s, Asking(cfg, s, task, user))
    ensures Next(cfg, s, Asking(cfg, s, task, user)).store.Users(task) == s.store.Users(task)[user := s.clock + 60.0]
  {
    OneMoreIsChosen(s.store, s.clock, 60.0, cfg.tasks[task].project, user, LaggingRow(cfg, s, task));
    AskingIsFirstGrant(cfg, s, task, user);
  }

  lemma {:induction false} FillUp(cfg: Config, s: System, task: Id, user: Id) returns (steps: seq<Step>)
    requires task in cfg.tasks && !cfg.tasks[task].gold
    requires forall u | u in s.store.Users(task) :: s.store.Users(task)[u] >= s.clock && u !in s.RunsOf(task)
    requires forall u | u in s.store.Users(task) :: u < user
    requires forall u | u in s.RunsOf(task) :: u < user
    requires |s.store.Users(task)| <= cfg.tasks[task].answers - |Settled(s.RunsOf(task), s.clock)|
    ensures Possible(cfg, s, steps) && Timely(cfg, s, steps)
    ensures var end := After(cfg, s, steps);
            && end.RunsOf(task) == s.RunsOf(task)
            && end.store.Users(task).Keys !! s.RunsOf(task).Keys
            && |end.store.Users(task)| == cfg.tasks[task].answers - |Settled(s.RunsOf(task), s.clock)|
    decreases cfg.tasks[task].answers - |Settled(s.RunsOf(task), s.clock)| - |s.store.Users(task)|
  {
    if |s.store.Users(task)| == cfg.tasks[task].answers - |Settled(s.RunsOf(task), s.clock)| {
      steps := [];
      assert forall u | u in s.store.Users(task).Keys :: u !in s.RunsOf(task).Keys;
    } else {
      OneMoreTakes(cfg, s, task, user);
      var step := Asking(cfg, s, task, user);
      var s1 := Next(cfg, s, step);
      var rest := FillUp(cfg, s1, task, user + 1);
      steps := [step] + rest;
      assert steps[0] == step && steps[1..] == rest;
    }
  }

  lemma MissesOne(runs: Runs, user: Id, clock: Time)
    requires user !in runs
    ensures |Settled(runs[user := clock], clock + EXPIRE_LOCK_DELAY)| <= |runs| < |runs[user := clock]|
  {
    var after := runs[user := clock];
    assert after[user] == clock;
    Sets.SubsetSize(Settled(after, clock + EXPIRE_LOCK_DELAY), runs.Keys);
    assert after.Keys == runs.Keys + {user};
    assert |runs.Keys| == |runs| && |after.Keys| == |after|;
  }

  lemma DisjointSize(a: Table, b: Runs)
    requires a.Keys !! b.Keys
    ensures |a.Keys + b.Keys| == |a| + |b|
  {
    assert |a.Keys| == |a| && |b.Keys| == |b|;
  }

  // Five seconds after a late submission the grace entry is gone.
  lemma LateSubmissionIsUncovered(cfg: Config, s: System, user: Id, task: Id)
    requires Enabled(cfg, s, Submit(user, task)) && !LeavesGrace(s, task)
    ensures var s1 := Next(cfg, s, Submit(user, task));
            var s2 := Later(s1, s1.clock + EXPIRE_LOCK_DELAY);
            && s2.clock == s.clock + EXPIRE_LOCK_DELAY
            && s2.store.Users(task) == map[] && s2.RunsOf(task) == s.RunsOf(task)[user := s.clock]
  {
    ReleaseLockEffect(s.store, s.clock, task, user);
    var s1 := Next(cfg, s, Submit(user, task));
    DropEffect(s1.store, s.clock + EXPIRE_LOCK_DELAY);
    assert IsLapsed(s1.store, s.clock + EXPIRE_LOCK_DELAY, TaskUsers(task));
  }

  // While a replica misses a submission that no entry covers, enough users who ask are given the
  // task to exceed the answers.
  lemma UncoveredOverAssigns(cfg: Config, s: System, task: Id) returns (steps: seq<Step>)
    requires task in cfg.tasks && !cfg.tasks[task].gold && s.store.Users(task) == map[]
    requires |Settled(s.RunsOf(task), s.clock)| < |s.RunsOf(task)|
    requires |Settled(s.RunsOf(task), s.clock)| <= cfg.tasks[task].answers
    ensures Possible(cfg, s, steps) && Timely(cfg, s, steps) && OverAssigned(cfg, After(cfg, s, steps), task)
  {
    var first := Sets.UpperBound(s.RunsOf(task).Keys);
    steps := FillUp(cfg, s, task, first);
    DisjointSize(After(cfg, s, steps).store.Users(task), s.RunsOf(task));
  }

  lemma LateSubmissionOverAssigns(cfg: Config, s: System, user: Id, task: Id) returns (steps: seq<Step>)
    requires Enabled(cfg, s, Submit(user, task)) && !cfg.tasks[task].gold && !LeavesGrace(s, task)
    ensures var s1 := Next(cfg, s, Submit(user, task));
            Possible(cfg, s1, steps) && Timely(cfg, s1, steps) && OverAssigned(cfg, After(cfg, s1, steps), task)
  {
    var s1 := Next(cfg, s, Submit(user, task));
    LateSubmissionIsUncovered(cfg, s, user, task);
    MissesOne(s.RunsOf(task), user, s.clock);
    var rest := UncoveredOverAssigns(cfg, Later(s1, s1.clock + EXPIRE_LOCK_DELAY), task);
    steps := WaitFirst(cfg, s1, EXPIRE_LOCK_DELAY, rest);
  }

  lemma WaitFirst(cfg: Config, s: System, elapsed: Time, rest: seq<Step>) returns (steps: seq<Step>)
    requires elapsed >= 0.0
    requires Possible(cfg, Later(s, s.clock + elapsed), rest) && Timely(cfg, Later(s, s.clock + elapsed), rest)
    ensures Possible(cfg, s, steps) && Timely(cfg, s, steps)
    ensures After(cfg, s, steps) == After(cfg, Later(s, s.clock + elapsed), rest)
  {
    steps := [Tick(elapsed)] + rest;
    assert steps[0] == Tick(elapsed) && steps[1..] == rest;
  }

  // No timely continuation gives the task to too many users.
  ghost predicate StaysWithin(cfg: Config, s: System, task: Id)
    requires task in cfg.tasks
  {
    forall steps | Possible(cfg, s, steps) && Timely(cfg, s, steps) :: !OverAssigned(cfg, After(cfg, s, steps), task)
  }

  lemma InvariantStaysWithin(cfg: Config, s: System, task: Id)
    requires Invariant(cfg, s) && task in cfg.tasks && !cfg.tasks[task].gold
    ensures StaysWithin(cfg, s, task)
  {
    forall steps | Possible(cfg, s, steps) && Timely(cfg, s, steps) ensures !OverAssigned(cfg, After(cfg, s, steps), task) {
      RunKeepsInvariant(cfg, s, steps);
      assert TaskWithin(cfg, After(cfg, s, steps), task);
    }
  }

  // A submission is safe whatever follows exactly when it leaves the grace period.
  lemma SubmissionIsSafeIff(cfg: Config, s: System, user: Id, task: Id)
    requires Invariant(cfg, s) && Enabled(cfg, s, Submit(user, task)) && !cfg.tasks[task].gold
    ensures StaysWithin(cfg, Next(cfg, s, Submit(user, task)), task) <==> LeavesGrace(s, task)
  {
    if LeavesGrace(s, task) {
      StepKeepsInvariant(cfg, s, Submit(user, task));
      InvariantStaysWithin(cfg, Next(cfg, s, Submit(user, task)), task);
    } else {
      var steps := LateSubmissionOverAssigns(cfg, s, user, task);
    }
  }
}
