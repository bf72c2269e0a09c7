/**
 The scheduler's lock protocol as a state machine: a clock, the Redis store and the
 submitted task runs, moved by requests, submissions, cancellations, sweeps and ticks.
 */
module LockSystem {
  import opened Options
  import opened LockTable
  import opened LockStore

  datatype Task = Task(project: Id, answers: int, gold: bool)

  // The default timeout, and tasks that are never deleted. The timeout of a lock is that of its
  // project at the time of the request.
  datatype Config = Config(timeout: Time, tasks: map<Id, Task>) {
    predicate Valid() {
      forall t | t in tasks :: t > 0 && tasks[t].answers >= 0
    }
  }

  datatype System = System(clock: Time, store: Store, runs: map<Id, Runs>) {
    function RunsOf(task: Id): Runs {
      if task in runs then runs[task] else map[]
    }
  }

  // A row of the candidate query, in the order in which the scheduler tries them.
  datatype Candidate = Candidate(task: Id, taskCount: int, answers: int, calibration: bool, gotMutex: bool)

  function Remaining(row: Candidate): Limit {
    if row.calibration then Infinite else Finite(row.answers - row.taskCount)
  }

  // The row may come from a lagging replica: its run count misses no run older than
  // the grace period, and nothing more is known about it.
  ghost predicate Current(cfg: Config, s: System, project: Id, row: Candidate) {
    && row.task in cfg.tasks
    && cfg.tasks[row.task].project == project
    && row.answers == cfg.tasks[row.task].answers
    && row.calibration == cfg.tasks[row.task].gold
    && row.taskCount >= |Settled(s.RunsOf(row.task), s.clock)|
  }

  function Grant(st: Store, now: Time, timeout: Time, project: Id, user: Id, row: Candidate): Outcome {
    var locks := AcquireLocks(st, now, timeout, row.task, user, Remaining(row), row.gotMutex);
    if locks.granted then Outcome(Register(locks.store, now, timeout, row.task, project, user), true)
    else locks
  }

  predicate Granted(st: Store, now: Time, timeout: Time, user: Id, row: Candidate) {
    Acquire(st.Users(row.task), now, timeout, user, Remaining(row), row.gotMutex).granted
  }

  // The keys that granting a candidate may write.
  function Touched(project: Id, user: Id, row: Candidate): set<Key> {
    {TaskUsers(row.task), UserTasks(user), ActiveUsers(Decoded(project))}
  }

  // One attempt to grant a candidate leads from st to st1.
  ghost predicate Grants(st: Store, st1: Store, now: Time, timeout: Time, project: Id, user: Id, row: Candidate) {
    var active := ActiveUsers(Decoded(project));
    && AcquiredIn(st, st1, TaskUsers(row.task), now, timeout, user, Remaining(row), row.gotMutex)
    && if Granted(st, now, timeout, user, row) then
         && SameBut(st, st1, Touched(project, user, row))
         && AcquiredIn(st, st1, UserTasks(user), now, timeout, row.task, Infinite, row.gotMutex)
         && st1.Entries(active) == st.Entries(active)[user := now + timeout]
         && st1.Lease(active) == Some(now + timeout)
         && st1.owners == st.owners[row.task := Owner(project, now + 2.0 * timeout)]
       else
         SameBut(st, st1, {TaskUsers(row.task)}) && st1.owners == st.owners
  }

  lemma GrantEffect(st: Store, now: Time, timeout: Time, project: Id, user: Id, row: Candidate)
    ensures var r := Grant(st, now, timeout, project, user, row);
            && Grants(st, r.store, now, timeout, project, user, row)
            && r.granted == Granted(st, now, timeout, user, row)
  {
    AcquireLocksEffect(st, now, timeout, row.task, user, Remaining(row), row.gotMutex);
    var locks := AcquireLocks(st, now, timeout, row.task, user, Remaining(row), row.gotMutex);
    RegisterEffect(locks.store, now, timeout, row.task, project, user);
  }

  // The user has an entry that has not expired, or the entries that have not expired leave room beside
  // the runs counted and the update mutex was obtained; a gold task always has room.
  predicate Obtainable(h: Table, now: Time, user: Id, row: Candidate) {
    || (user in h && h[user] >= now)
    || row.calibration
    || (row.gotMutex && |set c | c in h && h[c] >= now| < row.answers - row.taskCount)
  }

  // What a grant gives: an entry in both hashes, the one that is there already or a new one, the
  // project of the task for twice the timeout, and activity in it for the timeout.
  lemma GrantMeans(st: Store, now: Time, timeout: Time, project: Id, user: Id, row: Candidate)
    ensures var r := Grant(st, now, timeout, project, user, row);
            var users, tasks := st.Users(row.task), st.Tasks(user);
            && (r.granted <==> Obtainable(users, now, user, row))
            && (r.granted ==>
                  && user in r.store.Users(row.task) && row.task in r.store.Tasks(user)
                  && r.store.Users(row.task)[user] == (if user in users && users[user] >= now then users[user] else now + timeout)
                  && r.store.Tasks(user)[row.task] ==
                       (if row.task in tasks && tasks[row.task] >= now then tasks[row.task] else now + timeout)
                  && r.store.Active(project) == st.Active(project)[user := now + timeout]
                  && r.store.owners == st.owners[row.task := Owner(project, now + 2.0 * timeout)])
            && (!r.granted ==> SameBut(st, r.store, {TaskUsers(row.task)}) && r.store.owners == st.owners)
            && SameBut(st, r.store, Touched(project, user, row))
  {
    GrantEffect(st, now, timeout, project, user, row);
    AcquireMeans(st.Users(row.task), now, timeout, user, Remaining(row), row.gotMutex);
    AcquireMeans(st.Tasks(user), now, timeout, row.task, Infinite, row.gotMutex);
  }

  datatype Chosen = Chosen(store: Store, task: Option<Id>)

  // Candidates are tried in order until one is locked.
  function FirstGrant(st: Store, now: Time, timeout: Time, project: Id, user: Id, rows: seq<Candidate>): Chosen
    decreases |rows|
  {
    if rows == [] then Chosen(st, None)
    else
      var first := Grant(st, now, timeout, project, user, rows[0]);
      if first.granted then Chosen(first.store, Some(rows[0].task))
      else FirstGrant(first.store, now, timeout, project, user, rows[1..])
  }

  // Keys for the known tasks among `tasks` whose project key is gone.
  function LostOwners(cfg: Config, st: Store, now: Time, tasks: set<Id>): map<Id, Owner> {
    map t | t in tasks && st.OwnerOf(t, now).None? && t in cfg.tasks ::
      Owner(cfg.tasks[t].project, now + 2.0 * cfg.timeout)
  }

  function RecordOwners(cfg: Config, st: Store, now: Time, tasks: set<Id>): Store {
    st.(owners := st.owners + LostOwners(cfg, st, now, tasks))
  }

  // What looking up a user's locks does.
  function Remember(cfg: Config, st: Store, now: Time, user: Id): Store {
    RecordOwners(cfg, st, now, st.Tasks(user).Keys)
  }

  // The tasks of a project that the user's hash mentions, expired or not.
  function ProjectTasks(cfg: Config, st: Store, project: Id, user: Id): set<Id> {
    set t | t in st.Tasks(user) && t in cfg.tasks && cfg.tasks[t].project == project
  }

  // `best` has the longest remaining lock of the user in the project, if there is any.
  ghost predicate IsLongest(cfg: Config, st: Store, project: Id, user: Id, best: Option<Id>) {
    match best
    case None => ProjectTasks(cfg, st, project, user) == {}
    case Some(b) =>
      && b in ProjectTasks(cfg, st, project, user)
      && forall t | t in ProjectTasks(cfg, st, project, user) :: st.Tasks(user)[t] <= st.Tasks(user)[b]
  }

  // A lock with more than this many seconds left is handed out again.
  const REUSE_LOCK_SECONDS: Time := 10.0

  predicate Reusable(st: Store, now: Time, user: Id, best: Option<Id>) {
    best.Some? && best.value in st.Tasks(user) && st.Tasks(user)[best.value] - now > REUSE_LOCK_SECONDS
  }

  // One call of the locked scheduler; `saved` is a request for saved tasks, which skips
  // the look at the user's present locks.
  function Schedule(cfg: Config, st: Store, now: Time, timeout: Time, project: Id, user: Id,
                    saved: bool, best: Option<Id>, rows: seq<Candidate>): Chosen {
    var st1 := if saved then st else Remember(cfg, st, now, user);
    if !saved && Reusable(st, now, user, best) then Chosen(st1, best)
    else FirstGrant(Purge(st1, now, ActiveUsers(Decoded(project))), now, timeout, project, user, rows)
  }

  // A direct request counts the runs on the master database, and refuses a full task.
  function DirectGrant(cfg: Config, st: Store, now: Time, timeout: Time, user: Id, task: Id, masterCount: int,
                       gotMutex: bool): Outcome
    requires task in cfg.tasks
  {
    var t := cfg.tasks[task];
    if !t.gold && masterCount >= t.answers then Outcome(st, false)
    else Grant(st, now, timeout, t.project, user, Candidate(task, masterCount, t.answers, t.gold, gotMutex))
  }

  // A task that is not gold and has its answers is refused and nothing changes; any other direct
  // request is one grant on the answers still missing.
  lemma DirectGrantMeans(cfg: Config, st: Store, now: Time, timeout: Time, user: Id, task: Id, masterCount: int, gotMutex: bool)
    requires task in cfg.tasks
    ensures var t := cfg.tasks[task];
            var r := DirectGrant(cfg, st, now, timeout, user, task, masterCount, gotMutex);
            if !t.gold && masterCount >= t.answers then r == Outcome(st, false)
            else
              && (r.granted <==> Obtainable(st.Users(task), now, user, Candidate(task, masterCount, t.answers, t.gold, gotMutex)))
              && (r.granted ==> r.store.Active(t.project) == st.Active(t.project)[user := now + timeout]
                                && user in r.store.Users(task) && task in r.store.Tasks(user))
  {
    var t := cfg.tasks[task];
    GrantMeans(st, now, timeout, t.project, user, Candidate(task, masterCount, t.answers, t.gold, gotMutex));
  }

  // Afterwards the project of each known task of the user's hash is on record: as before, or, where the
  // key was gone, from the database and for twice the default timeout.
  lemma RememberMeans(cfg: Config, st: Store, now: Time, user: Id)
    ensures var st1 := Remember(cfg, st, now, user);
            && st1.hashes == st.hashes && st1.deadlines == st.deadlines
            && forall t :: if t in st.Tasks(user) && t in cfg.tasks && (t !in st.owners || st.owners[t].until < now) then
                             t in st1.owners && st1.owners[t] == Owner(cfg.tasks[t].project, now + 2.0 * cfg.timeout)
                           else
                             (t in st1.owners <==> t in st.owners) && (t in st.owners ==> st1.owners[t] == st.owners[t])
  {
  }

  datatype Step =
    | Request(project: Id, timeout: Time, user: Id, saved: bool, best: Option<Id>, rows: seq<Candidate>)
    | DirectRequest(timeout: Time, user: Id, task: Id, gotMutex: bool)
    | Submit(user: Id, task: Id)
    | Cancel(user: Id, task: Id)
    | Expunge(key: Key)
    | Tick(elapsed: Time)

  predicate OverAnswered(cfg: Config, s: System, task: Id)
    requires task in cfg.tasks
  {
    !cfg.tasks[task].gold && |s.RunsOf(task)| >= cfg.tasks[task].answers
  }

  ghost predicate Enabled(cfg: Config, s: System, step: Step) {
    match step
    case Request(project, timeout, user, saved, best, rows) =>
      && timeout > 0.0
      && (!saved ==> IsLongest(cfg, s.store, project, user, best))
      && forall i | 0 <= i < |rows| :: Current(cfg, s, project, rows[i])
    case DirectRequest(timeout, _, task, _) => timeout > 0.0 && task in cfg.tasks
    case Submit(user, task) =>
      && task in cfg.tasks
      && HasLock(s.store.Users(task), user, s.clock)
      && user !in s.RunsOf(task)
      && !OverAnswered(cfg, s, task)
    case Cancel(user, task) => task in cfg.tasks && HasLock(s.store.Users(task), user, s.clock)
    case Expunge(key) => true
    case Tick(elapsed) => elapsed >= 0.0
  }

  // The clock moves on, and Redis drops what is past its deadline.
  function Later(s: System, now: Time): System {
    s.(clock := now, store := Drop(s.store, now))
  }

  ghost function Next(cfg: Config, s: System, step: Step): System
    requires Enabled(cfg, s, step)
  {
    match step
    case Request(project, timeout, user, saved, best, rows) =>
      s.(store := Schedule(cfg, s.store, s.clock, timeout, project, user, saved, best, rows).store)
    case DirectRequest(timeout, user, task, gotMutex) =>
      s.(store := DirectGrant(cfg, s.store, s.clock, timeout, user, task, |s.RunsOf(task)|, gotMutex).store)
    case Submit(user, task) =>
      s.(store := ReleaseLock(s.store, s.clock, task, user),
         runs := s.runs[task := s.RunsOf(task)[user := s.clock]])
    case Cancel(user, task) => s.(store := ReleaseLock(s.store, s.clock, task, user))
    case Expunge(key) => s.(store := Purge(s.store, s.clock, key))
    case Tick(elapsed) => Later(s, s.clock + elapsed)
  }

  // A sweep leaves the entries of the hash that have not expired.
  lemma ExpungeMeans(cfg: Config, s: System, key: Key)
    ensures var s1 := Next(cfg, s, Expunge(key));
            && (forall c :: c in s1.store.Entries(key) <==> c in s.store.Entries(key) && s.store.Entries(key)[c] >= s.clock)
            && (forall c | c in s1.store.Entries(key) :: s1.store.Entries(key)[c] == s.store.Entries(key)[c])
            && SameBut(s.store, s1.store, {key}) && s1.store.owners == s.store.owners
            && s1.clock == s.clock && s1.runs == s.runs
  {
    PurgeEffect(s.store, s.clock, key);
  }

  // As time passes the hashes that are past their deadline go, with all their entries, and no others.
  lemma TickMeans(cfg: Config, s: System, elapsed: Time)
    requires elapsed >= 0.0
    ensures var s1 := Next(cfg, s, Tick(elapsed));
            && s1.clock == s.clock + elapsed && s1.runs == s.runs && s1.store.owners == s.store.owners
            && forall k :: if k in s.store.deadlines && s.store.deadlines[k] < s.clock + elapsed
                           then s1.store.Entries(k) == map[] && k !in s1.store.deadlines
                           else s1.store.Entries(k) == s.store.Entries(k) && s1.store.Lease(k) == s.store.Lease(k)
  {
    DropEffect(s.store, s.clock + elapsed);
  }

  ghost predicate Initial(s: System) {
    s.store == Store(map[], map[], map[]) && s.runs == map[]
  }

  // The steps can be taken one after another from `s`.
  ghost predicate Possible(cfg: Config, s: System, steps: seq<Step>)
    decreases |steps|
  {
    steps == [] || (Enabled(cfg, s, steps[0]) && Possible(cfg, Next(cfg, s, steps[0]), steps[1..]))
  }

  ghost function After(cfg: Config, s: System, steps: seq<Step>): System
    requires Possible(cfg, s, steps)
    decreases |steps|
  {
    if steps == [] then s else After(cfg, Next(cfg, s, steps[0]), steps[1..])
  }

  lemma {:induction false} Chained(cfg: Config, s: System, first: seq<Step>, second: seq<Step>)
    requires Possible(cfg, s, first) && Possible(cfg, After(cfg, s, first), second)
    ensures Possible(cfg, s, first + second)
    ensures After(cfg, s, first + second) == After(cfg, After(cfg, s, first), second)
    decreases |first|
  {
    if first == [] {
      assert first + second == second;
    } else {
      assert (first + second)[1..] == first[1..] + second;
      Chained(cfg, Next(cfg, s, first[0]), first[1..], second);
    }
  }

  lemma OneMore(cfg: Config, s: System, steps: seq<Step>, step: Step)
    requires Possible(cfg, s, steps) && Enabled(cfg, After(cfg, s, steps), step)
    ensures Possible(cfg, s, steps + [step])
    ensures After(cfg, s, steps + [step]) == Next(cfg, After(cfg, s, steps), step)
  {
    assert [step][1..] == [];
    Chained(cfg, s, steps, [step]);
  }
}
