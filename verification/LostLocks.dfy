/** Runs in which a lock outlives one of its records. */
module LostLocks {
  import opened Options
  import opened LockTable
  import opened LockStore
  import opened LockSystem
  import Listing

  // The task has room and neither hash knows the user and the task yet.
  ghost predicate CanTakeUp(st: Store, now: Time, user: Id, row: Candidate) {
    && row.gotMutex && |st.Users(row.task)| < row.answers - row.taskCount
    && (forall u | u in st.Users(row.task) :: st.Users(row.task)[u] >= now)
    && (forall t | t in st.Tasks(user) :: st.Tasks(user)[t] >= now)
    && user !in st.Users(row.task) && row.task !in st.Tasks(user)
  }

  // Both hashes take up a lock until then, which is their deadline, and the user is active until then.
  ghost predicate TakesUp(st: Store, st1: Store, project: Id, user: Id, task: Id, until: Time) {
    var users, tasks, active := TaskUsers(task), UserTasks(user), ActiveUsers(Decoded(project));
    && st1.Entries(users) == st.Entries(users)[user := until] && st1.Lease(users) == Some(until)
    && st1.Entries(tasks) == st.Entries(tasks)[task := until] && st1.Lease(tasks) == Some(until)
    && st1.Lease(active) == Some(until)
    && SameBut(st, st1, {users, tasks, active})
  }

  lemma GrantTakesUp(st: Store, now: Time, timeout: Time, project: Id, user: Id, row: Candidate)
    requires CanTakeUp(st, now, user, row) && !row.calibration
    ensures Granted(st, now, timeout, user, row)
    ensures TakesUp(st, Grant(st, now, timeout, project, user, row).store, project, user, row.task, now + timeout)
  {
    SweepKeepsLive(st.Users(row.task), now);
    SweepKeepsLive(st.Tasks(user), now);
    GrantEffect(st, now, timeout, project, user, row);
  }

  function Asking(project: Id, timeout: Time, user: Id, row: Candidate): Step {
    Request(project, timeout, user, false, None, [row])
  }

  // A request with one candidate, in a project in which the user holds nothing.
  lemma AskingIsFirstGrant(cfg: Config, s: System, timeout: Time, project: Id, user: Id, row: Candidate)
    requires timeout > 0.0 && Current(cfg, s, project, row) && ProjectTasks(cfg, s.store, project, user) == {}
    ensures Enabled(cfg, s, Asking(project, timeout, user, row))
    ensures Next(cfg, s, Asking(project, timeout, user, row))
         == s.(store := FirstGrant(Listing.Ready(cfg, s.store, s.clock, project, user, false), s.clock,
                                   timeout, project, user, [row]).store)
  {
  }

  lemma ReadyIsSame(cfg: Config, st: Store, now: Time, project: Id, user: Id)
    ensures SameBut(st, Listing.Ready(cfg, st, now, project, user, false), {ActiveUsers(Decoded(project))})
  {
    PurgeEffect(Remember(cfg, st, now, user), now, ActiveUsers(Decoded(project)));
  }

  lemma OnlyRowIsGranted(st0: Store, st: Store, now: Time, timeout: Time, project: Id, user: Id, row: Candidate)
    requires SameBut(st0, st, {ActiveUsers(Decoded(project))})
    requires CanTakeUp(st0, now, user, row) && !row.calibration
    ensures TakesUp(st0, FirstGrant(st, now, timeout, project, user, [row]).store, project, user, row.task, now + timeout)
  {
    assert st.Users(row.task) == st0.Users(row.task) && st.Tasks(user) == st0.Tasks(user);
    GrantTakesUp(st, now, timeout, project, user, row);
    GrantEffect(st, now, timeout, project, user, row);
  }

  lemma AskingTakesUp(cfg: Config, s: System, timeout: Time, project: Id, user: Id, row: Candidate, s1: System)
    requires CanTakeUp(s.store, s.clock, user, row) && !row.calibration
    requires s1 == s.(store := FirstGrant(Listing.Ready(cfg, s.store, s.clock, project, user, false), s.clock,
                                          timeout, project, user, [row]).store)
    ensures TakesUp(s.store, s1.store, project, user, row.task, s.clock + timeout)
  {
    ReadyIsSame(cfg, s.store, s.clock, project, user);
    OnlyRowIsGranted(s.store, Listing.Ready(cfg, s.store, s.clock, project, user, false), s.clock, timeout, project, user, row);
  }

  // Either no lock is ever released, or every lock is taken for the same time.
  datatype Only = NoRelease | OneTimeout(timeout: Time)

  // Requests other than for saved tasks, cancellations, and time passing.
  predicate Plain(step: Step, only: Only) {
    match step
    case Request(_, timeout, _, saved, _, _) => !saved && (only.OneTimeout? ==> timeout == only.timeout)
    case Cancel(_, _) => only.OneTimeout?
    case Tick(_) => true
    case _ => false
  }

  ghost predicate LeadsBy(cfg: Config, s: System, s1: System, only: Only, steps: seq<Step>) {
    Possible(cfg, s, steps) && After(cfg, s, steps) == s1 && forall i | 0 <= i < |steps| :: Plain(steps[i], only)
  }

  // A run of such steps leads from s to s1.
  ghost predicate Leads(cfg: Config, s: System, s1: System, only: Only) {
    exists steps :: LeadsBy(cfg, s, s1, only, steps)
  }

  lemma LeadsNowhere(cfg: Config, s: System, only: Only)
    ensures Leads(cfg, s, s, only)
  {
    assert LeadsBy(cfg, s, s, only, []);
  }

  lemma LeadsOn(cfg: Config, s: System, s1: System, only: Only, step: Step)
    requires Leads(cfg, s, s1, only) && Enabled(cfg, s1, step) && Plain(step, only)
    ensures Leads(cfg, s, Next(cfg, s1, step), only)
  {
    var steps :| LeadsBy(cfg, s, s1, only, steps);
    OneMore(cfg, s, steps, step);
    assert LeadsBy(cfg, s, Next(cfg, s1, step), only, steps + [step]);
  }

  lemma Waits(cfg: Config, s: System, s1: System, only: Only, later: Time)
    requires Leads(cfg, s, s1, only) && later >= s1.clock
    ensures Leads(cfg, s, Later(s1, later), only)
  {
    LeadsOn(cfg, s, s1, only, Tick(later - s1.clock));
  }

  predicate HasTask(cfg: Config, task: Id, project: Id, answers: int) {
    task in cfg.tasks && cfg.tasks[task] == Task(project, answers, false)
  }

  function RowFor(task: Id, answers: int): Candidate {
    Candidate(task, 0, answers, false, true)
  }

  lemma IsCurrent(cfg: Config, s: System, project: Id, task: Id, answers: int)
    requires HasTask(cfg, task, project, answers) && s.runs == map[]
    ensures Current(cfg, s, project, RowFor(task, answers))
  {
    assert Settled(s.RunsOf(task), s.clock) == {};
  }

  // The user asks for a task of a project in which the user holds nothing, and gets it.
  lemma Takes(cfg: Config, s: System, s1: System, only: Only, timeout: Time, project: Id, user: Id, task: Id, answers: int)
    returns (s2: System)
    requires Leads(cfg, s, s1, only) && s1.runs == map[] && HasTask(cfg, task, project, answers) && timeout > 0.0
    requires only.OneTimeout? ==> timeout == only.timeout
    requires ProjectTasks(cfg, s1.store, project, user) == {} && CanTakeUp(s1.store, s1.clock, user, RowFor(task, answers))
    ensures Leads(cfg, s, s2, only) && s2.clock == s1.clock && s2.runs == map[]
    ensures TakesUp(s1.store, s2.store, project, user, task, s1.clock + timeout)
  {
    var row := RowFor(task, answers);
    IsCurrent(cfg, s1, project, task, answers);
    AskingIsFirstGrant(cfg, s1, timeout, project, user, row);
    LeadsOn(cfg, s, s1, only, Asking(project, timeout, user, row));
    s2 := Next(cfg, s1, Asking(project, timeout, user, row));
    AskingTakesUp(cfg, s1, timeout, project, user, row, s2);
  }

  lemma InitiallyTakes(cfg: Config, s: System, only: Only, timeout: Time, project: Id, user: Id, task: Id, answers: int)
    returns (s1: System)
    requires Initial(s) && HasTask(cfg, task, project, answers) && answers > 0 && timeout > 0.0
    requires only.OneTimeout? ==> timeout == only.timeout
    ensures Leads(cfg, s, s1, only) && s1.clock == s.clock && s1.runs == map[]
    ensures TakesUp(s.store, s1.store, project, user, task, s.clock + timeout)
  {
    LeadsNowhere(cfg, s, only);
    s1 := Takes(cfg, s, s, only, timeout, project, user, task, answers);
  }

  /** ---- Two projects with different timeouts ---- */

  // Tasks 1 and 3 belong to project 1 and task 2 to project 2; each needs one answer.
  predicate TwoProjects(cfg: Config) {
    HasTask(cfg, 1, 1, 1) && HasTask(cfg, 2, 2, 1) && HasTask(cfg, 3, 1, 1)
  }

  // User 1 holds task 1 until 3600, and so long are its two hashes kept.
  ghost predicate Holds1(st: Store) {
    && st.Users(1) == map[1 := 3600.0] && st.Lease(TaskUsers(1)) == Some(3600.0)
    && st.Tasks(1) == map[1 := 3600.0] && st.Lease(UserTasks(1)) == Some(3600.0)
    && st.Users(2) == map[] && st.Users(3) == map[]
  }

  lemma TakingUpHolds1(st: Store, st1: Store)
    requires st == Store(map[], map[], map[]) && TakesUp(st, st1, 1, 1, 1, 3600.0)
    ensures Holds1(st1)
  {
  }

  lemma TakesTask1(cfg: Config, s: System) returns (s1: System)
    requires TwoProjects(cfg) && s.clock == 0.0 && Initial(s)
    ensures Leads(cfg, s, s1, NoRelease) && s1.clock == 0.0 && s1.runs == map[] && Holds1(s1.store)
  {
    s1 := InitiallyTakes(cfg, s, NoRelease, 3600.0, 1, 1, 1, 1);
    TakingUpHolds1(s.store, s1.store);
  }

  lemma WaitingHolds1(st: Store)
    requires Holds1(st)
    ensures Holds1(Drop(st, 10.0))
  {
    DropEffect(st, 10.0);
  }

  // The lock on task 2 has given the hash of user 1 the deadline 70.
  ghost predicate Holds2(st: Store) {
    && st.Users(1) == map[1 := 3600.0] && st.Lease(TaskUsers(1)) == Some(3600.0)
    && st.Lease(UserTasks(1)) == Some(70.0)
    && st.Users(3) == map[]
  }

  lemma TakingUpHolds2(st: Store, st1: Store)
    requires Holds1(st) && TakesUp(st, st1, 2, 1, 2, 70.0)
    ensures Holds2(st1)
  {
  }

  lemma TakesTask2(cfg: Config, s: System, s1: System) returns (s2: System)
    requires TwoProjects(cfg) && Leads(cfg, s, s1, NoRelease) && s1.clock == 10.0 && s1.runs == map[] && Holds1(s1.store)
    ensures Leads(cfg, s, s2, NoRelease) && s2.clock == 10.0 && s2.runs == map[] && Holds2(s2.store)
  {
    s2 := Takes(cfg, s, s1, NoRelease, 60.0, 2, 1, 2, 1);
    TakingUpHolds2(s1.store, s2.store);
  }

  ghost predicate Forgotten(st: Store) {
    st.Users(1) == map[1 := 3600.0] && st.Tasks(1) == map[] && st.Users(3) == map[]
  }

  lemma WaitingForgets(st: Store)
    requires Holds2(st)
    ensures Forgotten(Drop(st, 80.0))
  {
    DropEffect(st, 80.0);
    assert IsLapsed(st, 80.0, UserTasks(1));
  }

  // Without any release, user 1 takes task 1 at 0 and task 2, of a project with a shorter timeout,
  // at 10. At 80 the user's hash is gone, while the lock on task 1 holds until 3600.
  lemma ShorterTimeoutForgets(cfg: Config, s: System) returns (end: System)
    requires TwoProjects(cfg) && s.clock == 0.0 && Initial(s)
    ensures Leads(cfg, s, end, NoRelease) && end.clock == 80.0 && end.runs == map[] && Forgotten(end.store)
  {
    var s1 := TakesTask1(cfg, s);
    Waits(cfg, s, s1, NoRelease, 10.0);
    WaitingHolds1(s1.store);
    var s2 := TakesTask2(cfg, s, Later(s1, 10.0));
    Waits(cfg, s, s2, NoRelease, 80.0);
    WaitingForgets(s2.store);
    end := Later(s2, 80.0);
  }

  ghost predicate HoldsTwo(st: Store) {
    1 in st.Users(1) && st.Users(1)[1] == 3600.0 && 1 in st.Users(3) && st.Users(3)[1] == 3680.0
  }

  lemma TakingUpHoldsTwo(st: Store, st1: Store)
    requires Forgotten(st) && TakesUp(st, st1, 1, 1, 3, 3680.0)
    ensures HoldsTwo(st1)
  {
  }

  // The user who asks then is granted task 3 of the project of task 1.
  lemma ForgottenIsGrantedTwice(cfg: Config, s: System) returns (end: System)
    requires TwoProjects(cfg) && s.clock == 0.0 && Initial(s)
    ensures Leads(cfg, s, end, NoRelease) && end.clock == 80.0 && HoldsTwo(end.store)
  {
    var s1 := ShorterTimeoutForgets(cfg, s);
    end := Takes(cfg, s, s1, NoRelease, 3600.0, 1, 1, 3, 1);
    TakingUpHoldsTwo(s1.store, end.store);
  }

  // And the listing does not show the lock on task 1.
  lemma ShorterTimeoutLosesListing(cfg: Config, s: System) returns (steps: seq<Step>)
    requires TwoProjects(cfg) && s.clock == 0.0 && Initial(s)
    ensures forall i | 0 <= i < |steps| :: Plain(steps[i], NoRelease)
    ensures Possible(cfg, s, steps)
    ensures var end := After(cfg, s, steps);
            && Listing.IsLocked(cfg, end.store, end.clock, 1, 1, 1, 3600.0)
            && forall e :: (1, 1, e) !in Listing.Listed(cfg, end.store, end.clock, 1)
  {
    var end := ShorterTimeoutForgets(cfg, s);
    steps :| LeadsBy(cfg, s, end, NoRelease, steps);
  }

  /** ---- Two users and a late cancellation ---- */

  ghost predicate OneHolder(st: Store) {
    && st.Users(1) == map[1 := 60.0] && st.Lease(TaskUsers(1)) == Some(60.0)
    && st.Tasks(1) == map[1 := 60.0] && st.Lease(UserTasks(1)) == Some(60.0)
    && st.Tasks(2) == map[]
  }

  lemma TakingUpOneHolder(st: Store, st1: Store)
    requires st == Store(map[], map[], map[]) && TakesUp(st, st1, 1, 1, 1, 60.0)
    ensures OneHolder(st1)
  {
  }

  lemma FirstUserTakes(cfg: Config, s: System) returns (s1: System)
    requires HasTask(cfg, 1, 1, 2) && s.clock == 0.0 && Initial(s)
    ensures Leads(cfg, s, s1, OneTimeout(60.0)) && s1.clock == 0.0 && s1.runs == map[] && OneHolder(s1.store)
  {
    s1 := InitiallyTakes(cfg, s, OneTimeout(60.0), 60.0, 1, 1, 1, 2);
    TakingUpOneHolder(s.store, s1.store);
  }

  lemma WaitingOneHolder(st: Store)
    requires OneHolder(st)
    ensures OneHolder(Drop(st, 30.0))
  {
    DropEffect(st, 30.0);
  }

  // The second lock on the task has moved the deadline of the task's hash, but not of the first
  // user's.
  ghost predicate TwoHolders(st: Store) {
    && 1 in st.Users(1) && st.Users(1)[1] == 60.0 && st.Lease(TaskUsers(1)) == Some(90.0)
    && st.Lease(UserTasks(1)) == Some(60.0)
  }

  lemma TakingUpTwoHolders(st: Store, st1: Store)
    requires OneHolder(st) && TakesUp(st, st1, 1, 2, 1, 90.0)
    ensures TwoHolders(st1)
  {
  }

  lemma SecondUserTakes(cfg: Config, s: System, s1: System) returns (s2: System)
    requires HasTask(cfg, 1, 1, 2) && Leads(cfg, s, s1, OneTimeout(60.0))
    requires s1.clock == 30.0 && s1.runs == map[] && OneHolder(s1.store)
    ensures Leads(cfg, s, s2, OneTimeout(60.0)) && s2.clock == 30.0 && TwoHolders(s2.store)
  {
    assert |map[1 := 60.0]| == 1;
    s2 := Takes(cfg, s, s1, OneTimeout(60.0), 60.0, 1, 2, 1, 2);
    TakingUpTwoHolders(s1.store, s2.store);
  }

  lemma WaitingTwoHolders(st: Store)
    requires TwoHolders(st)
    ensures TwoHolders(Drop(st, 57.0))
  {
    DropEffect(st, 57.0);
  }

  lemma FirstUserCancels(cfg: Config, s: System, s1: System) returns (s2: System)
    requires HasTask(cfg, 1, 1, 2) && Leads(cfg, s, s1, OneTimeout(60.0)) && s1.clock == 57.0 && TwoHolders(s1.store)
    ensures Leads(cfg, s, s2, OneTimeout(60.0)) && s2.clock == 57.0 && s2.store == ReleaseLock(s1.store, 57.0, 1, 1)
  {
    LeadsOn(cfg, s, s1, OneTimeout(60.0), Cancel(1, 1));
    s2 := Next(cfg, s1, Cancel(1, 1));
  }

  ghost predicate HalfForgotten(st: Store) {
    1 in st.Users(1) && st.Users(1)[1] == 62.0 && st.Tasks(1) == map[]
  }

  lemma CancellingHalfForgets(st: Store)
    requires TwoHolders(st)
    ensures HalfForgotten(Drop(ReleaseLock(st, 57.0, 1, 1), 61.0))
  {
    ReleaseLockEffect(st, 57.0, 1, 1);
    var st1 := ReleaseLock(st, 57.0, 1, 1);
    DropEffect(st1, 61.0);
    assert IsLapsed(st1, 61.0, UserTasks(1));
  }

  // With one timeout of 60, user 1 takes the task at 0 and user 2 at 30, and user 1 only at 57. At
  // 61 the cancelled lock still holds until 62, but user 1's hash is gone.
  lemma LateCancelHalfForgets(cfg: Config, s: System) returns (end: System)
    requires HasTask(cfg, 1, 1, 2) && s.clock == 0.0 && Initial(s)
    ensures Leads(cfg, s, end, OneTimeout(60.0)) && end.clock == 61.0 && HalfForgotten(end.store)
  {
    var s1 := FirstUserTakes(cfg, s);
    Waits(cfg, s, s1, OneTimeout(60.0), 30.0);
    WaitingOneHolder(s1.store);
    var s2 := SecondUserTakes(cfg, s, Later(s1, 30.0));
    Waits(cfg, s, s2, OneTimeout(60.0), 57.0);
    WaitingTwoHolders(s2.store);
    var s3 := FirstUserCancels(cfg, s, Later(s2, 57.0));
    Waits(cfg, s, s3, OneTimeout(60.0), 61.0);
    CancellingHalfForgets(Later(s2, 57.0).store);
    end := Later(s3, 61.0);
  }

  lemma LateCancelLosesListing(cfg: Config, s: System) returns (steps: seq<Step>)
    requires HasTask(cfg, 1, 1, 2) && s.clock == 0.0 && Initial(s)
    ensures forall i | 0 <= i < |steps| :: Plain(steps[i], OneTimeout(60.0))
    ensures Possible(cfg, s, steps)
    ensures var end := After(cfg, s, steps);
            && Listing.IsLocked(cfg, end.store, end.clock, 1, 1, 1, 62.0)
            && forall e :: (1, 1, e) !in Listing.Listed(cfg, end.store, end.clock, 1)
  {
    var end := LateCancelHalfForgets(cfg, s);
    steps :| LeadsBy(cfg, s, end, OneTimeout(60.0), steps);
  }
}
