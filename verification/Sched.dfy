/**
 The scheduler's functions on Redis: each carries out, read by read and write by write,
 the operation of the same name in LockStore and LockSystem.
 */
module Sched {
  import opened Options
  import opened LockTable
  import opened LockStore
  import opened LockSystem
  import opened RedisLock
  import Listing
  import Ranking
  import Sets

  datatype Lock = Lock(user: Id, task: Id, secondsRemaining: Time)

  class Scheduler {
    const redis: Redis
    const cfg: Config
    const locks: LockManager

    ghost predicate Valid()
      reads this, redis
    {
      redis.Valid() && locks.redis == redis && locks.duration == cfg.timeout
    }

    constructor (redis: Redis, cfg: Config)
      requires redis.Valid()
      ensures Valid() && this.redis == redis && this.cfg == cfg
    {
      this.redis, this.cfg := redis, cfg;
      locks := new LockManager(redis, cfg.timeout);
    }

    method AcquireLocks(task: Id, user: Id, limit: Limit, timeout: Time, gotMutex: bool, now: Time) returns (granted: bool)
      requires Valid()
      modifies redis`hashes, redis`deadlines
      ensures Valid()
      ensures LockStore.AcquireLocks(old(redis.Snapshot()), now, timeout, task, user, limit, gotMutex)
           == Outcome(redis.Snapshot(), granted)
    {
      var manager := new LockManager(redis, timeout);
      granted := manager.AcquireLock(TaskUsers(task), now, user, limit, gotMutex);
      if granted {
        var _ := manager.AcquireLock(UserTasks(user), now, task, Infinite, gotMutex);
      }
    }

    method RegisterActiveUser(project: Id, user: Id, ttl: Time, now: Time)
      requires Valid()
      modifies redis`hashes, redis`deadlines
      ensures Valid()
      ensures redis.Snapshot() == AddActive(old(redis.Snapshot()), now, ttl, project, user)
      ensures redis.Snapshot().Active(project) == old(redis.Snapshot()).Active(project)[user := now + ttl]
      ensures redis.Snapshot().Lease(ActiveUsers(Decoded(project))) == Some(now + ttl)
    {
      var key := ActiveUsers(Decoded(project));
      redis.HSet(key, user, now + ttl);
      assert user in redis.Snapshot().Entries(key);
      redis.Expire(key, now + ttl);
    }

    // The key is formatted from the project as it is given, decoded or not.
    method UnregisterActiveUser(project: ProjectName, user: Id, now: Time)
      requires Valid()
      modifies redis`hashes
      ensures Valid()
      ensures redis.Snapshot() == ReleaseIn(old(redis.Snapshot()), ActiveUsers(project), user, now)
      ensures redis.Snapshot().Entries(ActiveUsers(project)) ==
              old(redis.Snapshot()).Entries(ActiveUsers(project))[user := now + 5.0]
    {
      redis.HSet(ActiveUsers(project), user, now + EXPIRE_LOCK_DELAY);
    }

    method GetActiveUserCount(project: Id, now: Time) returns (count: nat)
      requires Valid()
      modifies redis`hashes, redis`deadlines
      ensures Valid()
      ensures redis.Snapshot() == old(Purge(redis.Snapshot(), now, ActiveUsers(Decoded(project))))
      ensures count == |set u | u in old(redis.Snapshot()).Active(project) && old(redis.Snapshot()).Active(project)[u] >= now|
    {
      ghost var active := redis.Snapshot().Active(project);
      PurgedEntries(redis.Snapshot(), now, ActiveUsers(Decoded(project)));
      locks.ReleaseExpiredLocks(ActiveUsers(Decoded(project)), now);
      count := redis.HLen(ActiveUsers(Decoded(project)));
      assert Sweep(active, now).Keys == set u | u in active && active[u] >= now;
      assert |Sweep(active, now).Keys| == |Sweep(active, now)|;
    }

    method GetTaskIdsProjectId(tasks: seq<Id>, now: Time) returns (projects: seq<Option<Id>>)
      ensures |projects| == |tasks|
      ensures forall i | 0 <= i < |tasks| :: projects[i] == redis.Snapshot().OwnerOf(tasks[i], now)
    {
      projects := [];
      for i := 0 to |tasks|
        invariant |projects| == i
        invariant forall j | 0 <= j < i :: projects[j] == redis.Snapshot().OwnerOf(tasks[j], now)
      {
        var project := redis.GetOwner(tasks[i], now);
        projects := projects + [project];
      }
    }

    // The two releases are queued; the reads and the unregistering come before them. The project
    // goes to the unregistering as Redis returned it.
    method ReleaseLock(task: Id, user: Id, now: Time)
      requires Valid()
      modifies redis`hashes
      ensures Valid()
      ensures redis.Snapshot() == LockStore.ReleaseLock(old(redis.Snapshot()), now, task, user)
    {
      ghost var st := redis.Snapshot();
      var owner := redis.GetOwner(task, now);
      var tasks, ids := locks.GetLocks(UserTasks(user));
      var remaining := [];
      for i := 0 to |ids|
        invariant forall t :: t in remaining <==> t in ids[..i] && t != task
      {
        if ids[i] != task {
          remaining := remaining + [ids[i]];
        }
      }
      var projects := GetTaskIdsProjectId(remaining, now);
      SameOwners(st, now, tasks.Keys - {task}, remaining, projects);
      if owner !in projects {
        UnregisterActiveUser(Raw(owner), user, now);
      }
      locks.ReleaseLock(TaskUsers(task), user, now);
      locks.ReleaseLock(UserTasks(user), task, now);
      ReleaseInAnyOrder(st, now, task, user);
    }

    // The project of a task, from its key or, when that is gone, from the database.
    method LookUpProject(task: Id, now: Time) returns (project: Option<Id>)
      requires Valid()
      modifies redis`owners
      ensures Valid()
      ensures redis.Snapshot() == RecordOwners(cfg, old(redis.Snapshot()), now, {task})
      ensures project == Listing.ProjectOf(cfg, old(redis.Snapshot()), now, task)
    {
      project := redis.GetOwner(task, now);
      if project.None? {
        if task in cfg.tasks {
          project := Some(cfg.tasks[task].project);
          redis.SetEx(task, cfg.tasks[task].project, now + 2.0 * cfg.timeout);
        }
      }
    }

    // The longest of the user's locks in the project, and the seconds left of it.
    method GetTaskIdAndDuration(project: Id, user: Id, now: Time) returns (task: Option<Id>, seconds: Time)
      requires Valid() && forall t :: Listing.OwnerTrue(cfg, redis.Snapshot(), t)
      modifies redis`owners
      ensures Valid()
      ensures redis.Snapshot() == Remember(cfg, old(redis.Snapshot()), now, user)
      ensures IsLongest(cfg, old(redis.Snapshot()), project, user, task)
      ensures seconds == if task.Some? then old(redis.Snapshot()).Tasks(user)[task.value] - now else -1.0
    {
      ghost var st := redis.Snapshot();
      var tasks, ids := locks.GetLocks(UserTasks(user));
      task := None;
      seconds := -1.0;
      for i := 0 to |ids|
        invariant Valid()
        invariant redis.Snapshot() == RecordOwners(cfg, st, now, Fields(ids[..i]))
        invariant LongestOf(cfg, st, now, project, user, Fields(ids[..i]), task, seconds)
      {
        var t := ids[i];
        RecordOneMore(cfg, st, now, ids, i);
        var owner := LookUpProject(t, now);
        assert Listing.OwnerTrue(cfg, st, t);
        LongestOfMore(cfg, st, now, project, user, Fields(ids[..i]), t, task, seconds);
        if owner == Some(project) {
          var left := tasks[t] - now;
          if task.None? || left > seconds {
            task, seconds := Some(t), left;
          }
        }
      }
      assert Fields(ids[..|ids|]) == tasks.Keys;
    }

    // A granted lock: the task's project is recorded and the user becomes active in it.
    method RecordLock(task: Id, project: Id, user: Id, timeout: Time, now: Time)
      requires Valid()
      modifies redis
      ensures Valid()
      ensures redis.Snapshot() == Register(old(redis.Snapshot()), now, timeout, task, project, user)
    {
      redis.SetEx(task, project, now + 2.0 * timeout);
      RegisterActiveUser(project, user, timeout, now);
    }

    // Tries one candidate, and records the lock when it is granted.
    method GrantCandidate(project: Id, user: Id, row: Candidate, timeout: Time, now: Time) returns (granted: bool)
      requires Valid()
      modifies redis
      ensures Valid()
      ensures Grant(old(redis.Snapshot()), now, timeout, project, user, row) == Outcome(redis.Snapshot(), granted)
    {
      granted := AcquireLocks(row.task, user, Remaining(row), timeout, row.gotMutex, now);
      if granted {
        RecordLock(row.task, project, user, timeout, now);
      }
    }

    method GrantFirst(project: Id, user: Id, rows: seq<Candidate>, timeout: Time, now: Time) returns (task: Option<Id>)
      requires Valid()
      modifies redis
      ensures Valid()
      ensures FirstGrant(old(redis.Snapshot()), now, timeout, project, user, rows) == Chosen(redis.Snapshot(), task)
    {
      ghost var st := redis.Snapshot();
      for i := 0 to |rows|
        invariant Valid()
        invariant FirstGrant(redis.Snapshot(), now, timeout, project, user, rows[i..])
               == FirstGrant(st, now, timeout, project, user, rows)
      {
        assert rows[i..][0] == rows[i] && rows[i..][1..] == rows[i + 1..];
        var granted := GrantCandidate(project, user, rows[i], timeout, now);
        if granted {
          return Some(rows[i].task);
        }
      }
      task := None;
    }

    // One request: hand out the present lock again, or lock the first candidate that can be.
    method GetLockedTask(project: Id, user: Id, saved: bool, rows: seq<Candidate>, timeout: Time, now: Time)
      returns (task: Option<Id>, ghost best: Option<Id>)
      requires Valid() && forall t :: Listing.OwnerTrue(cfg, redis.Snapshot(), t)
      modifies redis
      ensures Valid()
      ensures !saved ==> IsLongest(cfg, old(redis.Snapshot()), project, user, best)
      ensures Schedule(cfg, old(redis.Snapshot()), now, timeout, project, user, saved, best, rows)
           == Chosen(redis.Snapshot(), task)
    {
      best := None;
      if !saved {
        var held, seconds := GetTaskIdAndDuration(project, user, now);
        best := held;
        if held.Some? && seconds > REUSE_LOCK_SECONDS {
          return held, best;
        }
      }
      var _ := GetActiveUserCount(project, now);
      task := GrantFirst(project, user, rows, timeout, now);
    }

    // A task asked for directly: the runs are counted on the master database first.
    method LockTaskForUser(task: Id, user: Id, masterCount: int, timeout: Time, gotMutex: bool, now: Time)
      returns (granted: bool)
      requires Valid() && task in cfg.tasks
      modifies redis
      ensures Valid()
      ensures DirectGrant(cfg, old(redis.Snapshot()), now, timeout, user, task, masterCount, gotMutex)
           == Outcome(redis.Snapshot(), granted)
    {
      var t := cfg.tasks[task];
      if !t.gold {
        if masterCount >= t.answers {
          return false;
        }
      }
      granted := GrantCandidate(t.project, user, Candidate(task, masterCount, t.answers, t.gold, gotMutex), timeout, now);
    }

    // The project of a task whose key is gone; the locks of a deleted task are released.
    method ProjectOrRelease(task: Id, user: Id, now: Time) returns (project: Option<Id>)
      requires Valid() && redis.Snapshot().OwnerOf(task, now).None?
      modifies redis`hashes
      ensures Valid() && OnlyDeadReleased(cfg, old(redis.Snapshot()), redis.Snapshot(), now, {user})
      ensures AllReleased(cfg, old(redis.Snapshot()), redis.Snapshot(), now, user, {task})
      ensures project == if task in cfg.tasks then Some(cfg.tasks[task].project) else None
    {
      if task in cfg.tasks {
        return Some(cfg.tasks[task].project);
      }
      project := None;
      ghost var st := redis.Snapshot();
      locks.ReleaseLock(TaskUsers(task), user, now);
      locks.ReleaseLock(UserTasks(user), task, now);
      DeadReleased(cfg, st, task, user, now);
    }

    // One task of a user in the listing; `owner` is what its project key said.
    method ListTask(project: Id, user: Id, task: Id, owner: Option<Id>, expiration: Time, now: Time)
      returns (found: seq<Lock>)
      requires Valid() && owner == redis.Snapshot().OwnerOf(task, now)
      modifies redis`hashes
      ensures Valid() && OnlyDeadReleased(cfg, old(redis.Snapshot()), redis.Snapshot(), now, {user})
      ensures AllReleased(cfg, old(redis.Snapshot()), redis.Snapshot(), now, user, {task})
      ensures ListsTask(cfg, old(redis.Snapshot()), now, project, user, task, expiration, found)
    {
      var taskProject := owner;
      if taskProject.None? {
        taskProject := ProjectOrRelease(task, user, now);
      }
      found := [];
      if taskProject == Some(project) {
        var secondsRemaining := expiration - now;
        if secondsRemaining > 0.0 {
          found := [Lock(user, task, secondsRemaining)];
        }
      }
    }

    // The locks of one user in the project. Both entries of a task that no longer exists
    // are released, and the task is not listed.
    method ListUser(project: Id, user: Id, now: Time) returns (found: seq<Lock>)
      requires Valid()
      modifies redis`hashes
      ensures Valid() && OnlyDeadReleased(cfg, old(redis.Snapshot()), redis.Snapshot(), now, {user})
      ensures AllReleased(cfg, old(redis.Snapshot()), redis.Snapshot(), now, user, old(redis.Snapshot()).Tasks(user).Keys)
      ensures ListsLocks(cfg, old(redis.Snapshot()), now, project, {user}, found)
    {
      ghost var st := redis.Snapshot();
      var tasks, ids := locks.GetLocks(UserTasks(user));
      assert tasks == st.Tasks(user);
      var projects := GetTaskIdsProjectId(ids, now);
      found := [];
      for i := 0 to |ids|
        invariant Valid() && WalkedTasks(cfg, st, redis.Snapshot(), now, project, user, ids[..i], found)
      {
        ghost var st1 := redis.Snapshot();
        assert ids[i] in tasks && projects[i] == st1.OwnerOf(ids[i], now);
        var more := ListTask(project, user, ids[i], projects[i], tasks[ids[i]], now);
        WalkedTask(cfg, st, st1, redis.Snapshot(), now, project, user, ids, i, found, more);
        found := found + more;
      }
      WalkedThemAll(cfg, st, redis.Snapshot(), now, project, user, ids, found);
    }

    // The locks of a project, by way of its active users.
    method GetLockedTasksProject(project: Id, now: Time) returns (found: seq<Lock>)
      requires Valid()
      modifies redis`hashes
      ensures Valid()
      ensures ListsLocks(cfg, old(redis.Snapshot()), now, project, old(redis.Snapshot()).Active(project).Keys, found)
      ensures OnlyDeadReleased(cfg, old(redis.Snapshot()), redis.Snapshot(), now, old(redis.Snapshot()).Active(project).Keys)
      ensures forall u | u in old(redis.Snapshot()).Active(project) ::
                AllReleased(cfg, old(redis.Snapshot()), redis.Snapshot(), now, u, old(redis.Snapshot()).Tasks(u).Keys)
    {
      ghost var st := redis.Snapshot();
      var active, users := locks.GetLocks(ActiveUsers(Decoded(project)));
      found := [];
      for i := 0 to |users|
        invariant Valid() && Walked(cfg, st, redis.Snapshot(), now, project, users[..i], found)
      {
        ghost var st1 := redis.Snapshot();
        var more := ListUser(project, users[i], now);
        WalkedUser(cfg, st, st1, redis.Snapshot(), now, project, users, i, found, more);
        found := found + more;
      }
      assert users[..|users|] == users && Fields(users) == active.Keys;
    }
  }

  // The longest lock among some of the user's tasks, with the seconds left of it.
  ghost predicate LongestOf(cfg: Config, st: Store, now: Time, project: Id, user: Id, among: set<Id>,
                            task: Option<Id>, seconds: Time) {
    var mine := ProjectTasks(cfg, st, project, user) * among;
    match task
    case None => mine == {} && seconds == -1.0
    case Some(b) =>
      && b in mine && seconds == st.Tasks(user)[b] - now
      && forall t | t in mine :: st.Tasks(user)[t] <= st.Tasks(user)[b]
  }

  lemma LongestOfMore(cfg: Config, st: Store, now: Time, project: Id, user: Id, among: set<Id>, t: Id,
                      task: Option<Id>, seconds: Time)
    requires LongestOf(cfg, st, now, project, user, among, task, seconds)
    requires t in st.Tasks(user)
    ensures var left := st.Tasks(user)[t] - now;
            var better := t in ProjectTasks(cfg, st, project, user) && (task.None? || left > seconds);
            LongestOf(cfg, st, now, project, user, among + {t},
                      if better then Some(t) else task, if better then left else seconds)
  {
    var mine, more := ProjectTasks(cfg, st, project, user) * among, ProjectTasks(cfg, st, project, user) * (among + {t});
    assert more == if t in ProjectTasks(cfg, st, project, user) then mine + {t} else mine;
  }

  lemma RecordOneMore(cfg: Config, st: Store, now: Time, ids: seq<Id>, i: int)
    requires 0 <= i < |ids| && forall j, k | 0 <= j < k < |ids| :: ids[j] != ids[k]
    ensures var some := RecordOwners(cfg, st, now, Fields(ids[..i]));
            && some.OwnerOf(ids[i], now) == st.OwnerOf(ids[i], now)
            && RecordOwners(cfg, some, now, {ids[i]}) == RecordOwners(cfg, st, now, Fields(ids[..i + 1]))
    ensures Fields(ids[..i + 1]) == Fields(ids[..i]) + {ids[i]}
  {
    assert Fields(ids[..i + 1]) == Fields(ids[..i]) + {ids[i]};
    RecordBoth(cfg, st, now, Fields(ids[..i]), ids[i]);
  }

  lemma RecordBoth(cfg: Config, st: Store, now: Time, tasks: set<Id>, task: Id)
    requires task !in tasks
    ensures var some := RecordOwners(cfg, st, now, tasks);
            && some.OwnerOf(task, now) == st.OwnerOf(task, now)
            && RecordOwners(cfg, some, now, {task}) == RecordOwners(cfg, st, now, tasks + {task})
  {
    var some := RecordOwners(cfg, st, now, tasks);
    var lost, last := LostOwners(cfg, st, now, tasks), LostOwners(cfg, some, now, {task});
    assert task !in lost;
    assert LostOwners(cfg, st, now, tasks + {task}) == lost + last;
    assert (st.owners + lost) + last == st.owners + (lost + last);
  }

  /** ---- The project listing ---- */

  // The user's entry for the task is shown in the project's listing.
  predicate Shows(cfg: Config, st: Store, now: Time, project: Id, user: Id, task: Id) {
    && task in st.Tasks(user)
    && Listing.ProjectOf(cfg, st, now, task) == Some(project)
    && st.Tasks(user)[task] - now > 0.0
  }

  predicate IsListed(cfg: Config, st: Store, now: Time, project: Id, l: Lock) {
    Shows(cfg, st, now, project, l.user, l.task) && l.secondsRemaining == st.Tasks(l.user)[l.task] - now
  }

  // The list holds the shown locks of these users, each once.
  ghost predicate ListsLocks(cfg: Config, st: Store, now: Time, project: Id, users: set<Id>, found: seq<Lock>) {
    && (forall l | l in found :: l.user in users && IsListed(cfg, st, now, project, l))
    && (forall u, t | u in users && Shows(cfg, st, now, project, u, t) :: Lock(u, t, st.Tasks(u)[t] - now) in found)
    && forall i, j | 0 <= i < j < |found| :: (found[i].user, found[i].task) != (found[j].user, found[j].task)
  }

  // The list holds the lock that the entry shows, if it is shown.
  predicate ListsTask(cfg: Config, st: Store, now: Time, project: Id, user: Id, task: Id, expiration: Time, found: seq<Lock>) {
    found == if Listing.ProjectOf(cfg, st, now, task) == Some(project) && expiration - now > 0.0
             then [Lock(user, task, expiration - now)] else []
  }

  // The list holds the shown locks of one user on these tasks, each once.
  ghost predicate ListsTasks(cfg: Config, st: Store, now: Time, project: Id, user: Id, tasks: seq<Id>, found: seq<Lock>) {
    && (forall l | l in found :: l.user == user && l.task in tasks && IsListed(cfg, st, now, project, l))
    && (forall t | t in tasks && Shows(cfg, st, now, project, user, t) :: Lock(user, t, st.Tasks(user)[t] - now) in found)
    && forall i, j | 0 <= i < j < |found| :: found[i].task != found[j].task
  }

  lemma ListsOneMore(cfg: Config, st: Store, now: Time, project: Id, user: Id, tasks: seq<Id>, task: Id,
                     found: seq<Lock>, more: seq<Lock>)
    requires ListsTasks(cfg, st, now, project, user, tasks, found)
    requires task !in tasks && task in st.Tasks(user)
    requires more == if Shows(cfg, st, now, project, user, task)
                     then [Lock(user, task, st.Tasks(user)[task] - now)] else []
    ensures ListsTasks(cfg, st, now, project, user, tasks + [task], found + more)
  {
    forall l | l in found + more ensures l.user == user && l.task in tasks + [task] && IsListed(cfg, st, now, project, l) {
      assert l in found || l in more;
    }
    forall i, j | 0 <= i < j < |found + more| ensures (found + more)[i].task != (found + more)[j].task {
      assert i < |found| && found[i] in found;
    }
  }

  lemma ListsNext(cfg: Config, st: Store, st1: Store, st2: Store, now: Time, project: Id, user: Id, ids: seq<Id>,
                  i: nat, found: seq<Lock>, more: seq<Lock>)
    requires Sets.Lists(ids, st.Tasks(user).Keys) && i < |ids| && ids[i] in st.Tasks(user)
    requires OnlyDeadReleased(cfg, st, st1, now, {user}) && ListsTasks(cfg, st, now, project, user, ids[..i], found)
    requires OnlyDeadReleased(cfg, st1, st2, now, {user})
    requires ListsTask(cfg, st1, now, project, user, ids[i], st.Tasks(user)[ids[i]], more)
    ensures OnlyDeadReleased(cfg, st, st2, now, {user}) && ListsTasks(cfg, st, now, project, user, ids[..i + 1], found + more)
  {
    ReleasedTwice(cfg, st, st1, st2, now, user);
    assert ids[..i + 1] == ids[..i] + [ids[i]];
    assert Listing.ProjectOf(cfg, st1, now, ids[i]) == Listing.ProjectOf(cfg, st, now, ids[i]);
    ListsOneMore(cfg, st, now, project, user, ids[..i], ids[i], found, more);
  }

  // The task was deleted and its project key is gone.
  predicate IsGone(cfg: Config, st: Store, now: Time, task: Id) {
    task !in cfg.tasks && st.OwnerOf(task, now).None?
  }

  // The entry is as it was.
  predicate Kept(before: Table, after: Table, client: Id) {
    (client in after <==> client in before) && (client in before ==> after[client] == before[client])
  }

  // Five seconds are left of the entry.
  predicate HasGrace(h: Table, client: Id, now: Time) {
    client in h && h[client] == now + 5.0
  }

  ghost predicate KeptOrReleased(before: Table, after: Table, now: Time) {
    forall c :: Kept(before, after, c) || HasGrace(after, c, now)
  }

  lemma KeptTwice(before: Table, middle: Table, after: Table, now: Time)
    requires KeptOrReleased(before, middle, now) && KeptOrReleased(middle, after, now)
    ensures KeptOrReleased(before, after, now)
  {
    forall c ensures Kept(before, after, c) || HasGrace(after, c, now) {
      assert Kept(before, middle, c) || HasGrace(middle, c, now);
      assert Kept(middle, after, c) || HasGrace(after, c, now);
    }
  }

  // Nothing changed but entries of tasks that are gone, and of these users only; those were released.
  ghost predicate OnlyDeadReleased(cfg: Config, st: Store, st1: Store, now: Time, users: set<Id>) {
    && st1.owners == st.owners && st1.deadlines == st.deadlines
    && (forall p :: st1.Active(p) == st.Active(p))
    && (forall t | !IsGone(cfg, st, now, t) :: st1.Users(t) == st.Users(t))
    && (forall u | u !in users :: st1.Tasks(u) == st.Tasks(u))
    && (forall u, t | !IsGone(cfg, st, now, t) :: Kept(st.Tasks(u), st1.Tasks(u), t))
    && (forall u, t | u !in users :: Kept(st.Users(t), st1.Users(t), u))
    && (forall u :: KeptOrReleased(st.Tasks(u), st1.Tasks(u), now))
    && (forall t :: KeptOrReleased(st.Users(t), st1.Users(t), now))
  }

  // Both entries of the user on each of these tasks that is gone were released.
  ghost predicate AllReleased(cfg: Config, st: Store, st1: Store, now: Time, user: Id, tasks: set<Id>) {
    forall t | t in tasks && IsGone(cfg, st, now, t) :: HasGrace(st1.Users(t), user, now) && HasGrace(st1.Tasks(user), t, now)
  }

  lemma StaysReleased(cfg: Config, st: Store, st1: Store, st2: Store, now: Time, user: Id, tasks: set<Id>, users: set<Id>)
    requires st1.owners == st.owners
    requires AllReleased(cfg, st, st1, now, user, tasks) && OnlyDeadReleased(cfg, st1, st2, now, users)
    ensures AllReleased(cfg, st, st2, now, user, tasks)
  {
    forall t | t in tasks && IsGone(cfg, st, now, t)
      ensures HasGrace(st2.Users(t), user, now) && HasGrace(st2.Tasks(user), t, now)
    {
      assert Kept(st1.Users(t), st2.Users(t), user) || HasGrace(st2.Users(t), user, now);
      assert Kept(st1.Tasks(user), st2.Tasks(user), t) || HasGrace(st2.Tasks(user), t, now);
    }
  }

  lemma DeadReleased(cfg: Config, st: Store, task: Id, user: Id, now: Time)
    requires IsGone(cfg, st, now, task)
    ensures var st1 := ReleaseIn(ReleaseIn(st, TaskUsers(task), user, now), UserTasks(user), task, now);
            OnlyDeadReleased(cfg, st, st1, now, {user}) && AllReleased(cfg, st, st1, now, user, {task})
  {
    var st0 := ReleaseIn(st, TaskUsers(task), user, now);
    ReleaseInEffect(st, TaskUsers(task), user, now);
    ReleaseInEffect(st0, UserTasks(user), task, now);
    assert user in Release(st.Users(task), user, now) && task in Release(st0.Tasks(user), task, now);
    TwoWrites(cfg, st, ReleaseIn(st0, UserTasks(user), task, now), task, user, now);
  }

  lemma TwoWrites(cfg: Config, st: Store, st1: Store, task: Id, user: Id, now: Time)
    requires IsGone(cfg, st, now, task)
    requires SameBut(st, st1, {TaskUsers(task), UserTasks(user)})
    requires st1.owners == st.owners && st1.deadlines == st.deadlines
    requires st1.Users(task) == st.Users(task)[user := now + 5.0] && st1.Tasks(user) == st.Tasks(user)[task := now + 5.0]
    ensures OnlyDeadReleased(cfg, st, st1, now, {user}) && AllReleased(cfg, st, st1, now, user, {task})
  {
    assert forall t | t != task :: st1.Users(t) == st.Users(t);
    assert forall u | u != user :: st1.Tasks(u) == st.Tasks(u);
    forall u ensures KeptOrReleased(st.Tasks(u), st1.Tasks(u), now) {}
    forall t ensures KeptOrReleased(st.Users(t), st1.Users(t), now) {}
  }

  lemma ListedUnchanged(cfg: Config, st: Store, st1: Store, now: Time, project: Id, users: set<Id>, user: Id, more: seq<Lock>)
    requires OnlyDeadReleased(cfg, st, st1, now, users) && user !in users
    requires ListsLocks(cfg, st1, now, project, {user}, more)
    ensures ListsLocks(cfg, st, now, project, {user}, more)
  {
    forall t ensures Shows(cfg, st1, now, project, user, t) <==> Shows(cfg, st, now, project, user, t) {}
  }

  lemma MoreLocks(cfg: Config, st: Store, now: Time, project: Id, users: set<Id>, user: Id, found: seq<Lock>, more: seq<Lock>)
    requires user !in users
    requires ListsLocks(cfg, st, now, project, users, found) && ListsLocks(cfg, st, now, project, {user}, more)
    ensures ListsLocks(cfg, st, now, project, users + {user}, found + more)
  {
    forall i, j | 0 <= i < j < |found + more|
      ensures ((found + more)[i].user, (found + more)[i].task) != ((found + more)[j].user, (found + more)[j].task)
    {
      assert i < |found| ==> (found + more)[i] in found;
      assert j >= |found| ==> (found + more)[j] in more;
    }
  }

  lemma ReleasedMore(cfg: Config, st: Store, st1: Store, st2: Store, now: Time, users: set<Id>, user: Id)
    requires OnlyDeadReleased(cfg, st, st1, now, users) && OnlyDeadReleased(cfg, st1, st2, now, {user})
    ensures OnlyDeadReleased(cfg, st, st2, now, users + {user})
  {
    forall t ensures IsGone(cfg, st1, now, t) == IsGone(cfg, st, now, t) {}
    forall u ensures KeptOrReleased(st.Tasks(u), st2.Tasks(u), now) {
      KeptTwice(st.Tasks(u), st1.Tasks(u), st2.Tasks(u), now);
    }
    forall t ensures KeptOrReleased(st.Users(t), st2.Users(t), now) {
      KeptTwice(st.Users(t), st1.Users(t), st2.Users(t), now);
    }
    forall u, t | !IsGone(cfg, st, now, t) ensures Kept(st.Tasks(u), st2.Tasks(u), t) {
      assert Kept(st.Tasks(u), st1.Tasks(u), t) && Kept(st1.Tasks(u), st2.Tasks(u), t);
    }
    forall u, t | u !in users + {user} ensures Kept(st.Users(t), st2.Users(t), u) {
      assert Kept(st.Users(t), st1.Users(t), u) && Kept(st1.Users(t), st2.Users(t), u);
    }
  }

  lemma ReleasedTwice(cfg: Config, st: Store, st1: Store, st2: Store, now: Time, user: Id)
    requires OnlyDeadReleased(cfg, st, st1, now, {user}) && OnlyDeadReleased(cfg, st1, st2, now, {user})
    ensures OnlyDeadReleased(cfg, st, st2, now, {user})
  {
    ReleasedMore(cfg, st, st1, st2, now, {user}, user);
    assert {user} + {user} == {user};
  }

  // The tasks of one user that the walk has seen.
  ghost predicate WalkedTasks(cfg: Config, st: Store, st1: Store, now: Time, project: Id, user: Id, tasks: seq<Id>, found: seq<Lock>) {
    && OnlyDeadReleased(cfg, st, st1, now, {user})
    && AllReleased(cfg, st, st1, now, user, Fields(tasks))
    && ListsTasks(cfg, st, now, project, user, tasks, found)
  }

  lemma WalkedTask(cfg: Config, st: Store, st1: Store, st2: Store, now: Time, project: Id, user: Id, ids: seq<Id>,
                   i: nat, found: seq<Lock>, more: seq<Lock>)
    requires Sets.Lists(ids, st.Tasks(user).Keys) && i < |ids| && ids[i] in st.Tasks(user)
    requires WalkedTasks(cfg, st, st1, now, project, user, ids[..i], found)
    requires OnlyDeadReleased(cfg, st1, st2, now, {user}) && AllReleased(cfg, st1, st2, now, user, {ids[i]})
    requires ListsTask(cfg, st1, now, project, user, ids[i], st.Tasks(user)[ids[i]], more)
    ensures WalkedTasks(cfg, st, st2, now, project, user, ids[..i + 1], found + more)
  {
    ListsNext(cfg, st, st1, st2, now, project, user, ids, i, found, more);
    StaysReleased(cfg, st, st1, st2, now, user, Fields(ids[..i]), {user});
    ReleasedNext(cfg, st, st1, st2, now, user, ids, i);
  }

  lemma ReleasedNext(cfg: Config, st: Store, st1: Store, st2: Store, now: Time, user: Id, ids: seq<Id>, i: nat)
    requires i < |ids| && st1.owners == st.owners
    requires AllReleased(cfg, st, st2, now, user, Fields(ids[..i])) && AllReleased(cfg, st1, st2, now, user, {ids[i]})
    ensures AllReleased(cfg, st, st2, now, user, Fields(ids[..i + 1]))
  {
    assert ids[..i + 1] == ids[..i] + [ids[i]];
    assert Fields(ids[..i + 1]) == Fields(ids[..i]) + {ids[i]};
    assert IsGone(cfg, st1, now, ids[i]) == IsGone(cfg, st, now, ids[i]);
  }

  lemma WalkedThemAll(cfg: Config, st: Store, st1: Store, now: Time, project: Id, user: Id, tasks: seq<Id>, found: seq<Lock>)
    requires WalkedTasks(cfg, st, st1, now, project, user, tasks[..|tasks|], found)
    requires Sets.Lists(tasks, st.Tasks(user).Keys)
    ensures ListsLocks(cfg, st, now, project, {user}, found)
    ensures AllReleased(cfg, st, st1, now, user, st.Tasks(user).Keys)
  {
    assert tasks[..|tasks|] == tasks && Fields(tasks) == st.Tasks(user).Keys;
  }

  ghost predicate UsersReleased(cfg: Config, st: Store, st1: Store, now: Time, users: set<Id>) {
    forall u | u in users :: AllReleased(cfg, st, st1, now, u, st.Tasks(u).Keys)
  }

  // The users that the walk has seen.
  ghost predicate Walked(cfg: Config, st: Store, st1: Store, now: Time, project: Id, users: seq<Id>, found: seq<Lock>) {
    && OnlyDeadReleased(cfg, st, st1, now, Fields(users))
    && UsersReleased(cfg, st, st1, now, Fields(users))
    && ListsLocks(cfg, st, now, project, Fields(users), found)
  }

  lemma WalkedUser(cfg: Config, st: Store, st1: Store, st2: Store, now: Time, project: Id, users: seq<Id>, i: nat,
                   found: seq<Lock>, more: seq<Lock>)
    requires i < |users| && Walked(cfg, st, st1, now, project, users[..i], found) && users[i] !in users[..i]
    requires OnlyDeadReleased(cfg, st1, st2, now, {users[i]})
    requires AllReleased(cfg, st1, st2, now, users[i], st1.Tasks(users[i]).Keys)
    requires ListsLocks(cfg, st1, now, project, {users[i]}, more)
    ensures Walked(cfg, st, st2, now, project, users[..i + 1], found + more)
  {
    assert users[..i + 1] == users[..i] + [users[i]];
    assert Fields(users[..i + 1]) == Fields(users[..i]) + {users[i]};
    ListedUnchanged(cfg, st, st1, now, project, Fields(users[..i]), users[i], more);
    MoreLocks(cfg, st, now, project, Fields(users[..i]), users[i], found, more);
    ReleasedMore(cfg, st, st1, st2, now, Fields(users[..i]), users[i]);
    NextUserReleased(cfg, st, st1, st2, now, Fields(users[..i]), users[i]);
  }

  lemma NextUserReleased(cfg: Config, st: Store, st1: Store, st2: Store, now: Time, users: set<Id>, user: Id)
    requires OnlyDeadReleased(cfg, st, st1, now, users) && user !in users && UsersReleased(cfg, st, st1, now, users)
    requires OnlyDeadReleased(cfg, st1, st2, now, {user}) && AllReleased(cfg, st1, st2, now, user, st1.Tasks(user).Keys)
    ensures UsersReleased(cfg, st, st2, now, users + {user})
  {
    forall u | u in users ensures AllReleased(cfg, st, st2, now, u, st.Tasks(u).Keys) {
      StaysReleased(cfg, st, st1, st2, now, u, st.Tasks(u).Keys, {user});
    }
  }

  // What the method lists is the listing that Listing.Listed specifies.
  lemma MethodListsListed(cfg: Config, st: Store, now: Time, project: Id, found: seq<Lock>)
    requires ListsLocks(cfg, st, now, project, st.Active(project).Keys, found)
    ensures forall u, t, e :: (u, t, e) in Listing.Listed(cfg, st, now, project) <==> Lock(u, t, e - now) in found
  {
    forall u, t, e ensures (u, t, e) in Listing.Listed(cfg, st, now, project) <==> Lock(u, t, e - now) in found {
      if Lock(u, t, e - now) in found {
        assert IsListed(cfg, st, now, project, Lock(u, t, e - now));
        assert u in st.Active(project) && t in st.Tasks(u) && st.Tasks(u)[t] == e;
        assert (u, t, e) in Listing.Listed(cfg, st, now, project);
      }
    }
  }

  lemma SameOwners(st: Store, now: Time, others: set<Id>, remaining: seq<Id>, projects: seq<Option<Id>>)
    requires forall t :: t in remaining <==> t in others
    requires |projects| == |remaining|
    requires forall i | 0 <= i < |remaining| :: projects[i] == st.OwnerOf(remaining[i], now)
    ensures forall p :: p in projects <==> p in OwnersOf(st, others, now)
  {
    forall p | p in OwnersOf(st, others, now) ensures p in projects {
      var t :| t in others && st.OwnerOf(t, now) == p;
      assert t in remaining;
      var i :| 0 <= i < |remaining| && remaining[i] == t;
      assert projects[i] == p;
    }
  }

  // Unregistering first and releasing afterwards leaves the same store.
  lemma ReleaseInAnyOrder(st: Store, now: Time, task: Id, user: Id)
    ensures var key := ActiveUsers(Raw(st.OwnerOf(task, now)));
            var st1 := if LastOfProject(st, now, task, user) then st.Put(key, Release(st.Entries(key), user, now)) else st;
            var st2 := st1.Put(TaskUsers(task), Release(st1.Users(task), user, now));
            st2.Put(UserTasks(user), Release(st2.Tasks(user), task, now)) == LockStore.ReleaseLock(st, now, task, user)
  {
    var key := ActiveUsers(Raw(st.OwnerOf(task, now)));
    var active := Release(st.Entries(key), user, now);
    var users, tasks := Release(st.Users(task), user, now), Release(st.Tasks(user), task, now);
    assert user in active && user in users && task in tasks;
    PutCommutes(st, key, active, TaskUsers(task), users);
    PutCommutes(st, key, active, UserTasks(user), tasks);
    PutCommutes(st, TaskUsers(task), users, UserTasks(user), tasks);
    PutCommutes(st.Put(TaskUsers(task), users), key, active, UserTasks(user), tasks);
  }
}
