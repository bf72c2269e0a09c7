/**
 The listing of a project's locked tasks, found by walking active users, their tasks and
 the tasks' projects, against the users hashes of the tasks.
 */
module Listing {
  import opened Options
  import opened LockTable
  import opened LockStore
  import opened LockSystem

  // Where the listing finds the project of a task: its key, or else the database.
  function ProjectOf(cfg: Config, st: Store, now: Time, task: Id): Option<Id> {
    var owner := st.OwnerOf(task, now);
    if owner.Some? then owner
    else if task in cfg.tasks then Some(cfg.tasks[task].project)
    else None
  }

  // What the walk over a project's active users finds, with the expirations it reports.
  function Listed(cfg: Config, st: Store, now: Time, project: Id): set<(Id, Id, Time)> {
    set u, t | u in st.Active(project) && t in st.Tasks(u)
               && ProjectOf(cfg, st, now, t) == Some(project) && st.Tasks(u)[t] - now > 0.0 ::
      (u, t, st.Tasks(u)[t])
  }

  // The unexpired locks recorded with the tasks of a project.
  ghost predicate IsLocked(cfg: Config, st: Store, now: Time, project: Id, user: Id, task: Id, expiration: Time) {
    && task in cfg.tasks && cfg.tasks[task].project == project
    && user in st.Users(task) && st.Users(task)[user] == expiration && expiration > now
  }

  // The listing of the project is exactly its unexpired locks.
  ghost predicate Exact(cfg: Config, st: Store, now: Time, project: Id) {
    forall u, t, e :: (u, t, e) in Listed(cfg, st, now, project) <==> IsLocked(cfg, st, now, project, u, t, e)
  }

  // Sweeping the active users of a project, as every request does first.
  function Swept(st: Store, now: Time, project: Id): Store {
    Purge(st, now, ActiveUsers(Decoded(project)))
  }

  // Exact, and still so when the active users are swept.
  ghost predicate ExactSwept(cfg: Config, st: Store, now: Time, project: Id) {
    Exact(cfg, st, now, project) && Exact(cfg, Swept(st, now, project), now, project)
  }

  // With no further locks taken or released, the listing of every project is exact from now on.
  ghost predicate StaysExact(cfg: Config, st: Store, now: Time) {
    forall later, project | later >= now :: ExactSwept(cfg, Drop(st, later), later, project)
  }

  /** ---- One user and one task ---- */

  predicate Locked(st: Store, now: Time, user: Id, task: Id) {
    user in st.Users(task) && st.Users(task)[user] > now
  }

  predicate Shown(cfg: Config, st: Store, now: Time, user: Id, task: Id)
    requires task in cfg.tasks
  {
    && user in st.Active(cfg.tasks[task].project)
    && task in st.Tasks(user) && st.Tasks(user)[task] > now
  }

  predicate Right(cfg: Config, st: Store, now: Time, user: Id, task: Id) {
    task in cfg.tasks ==>
      && (Locked(st, now, user, task) <==> Shown(cfg, st, now, user, task))
      && (Locked(st, now, user, task) ==> st.Tasks(user)[task] == st.Users(task)[user])
  }

  // The user's hash and the hash of active users are there exactly as long as the lock, which ends
  // with its expiration or with the task's hash, and the user is active for as long.
  predicate Covered(cfg: Config, st: Store, user: Id, task: Id, expiration: Time)
    requires task in cfg.tasks
  {
    var project := cfg.tasks[task].project;
    var end := st.Until(TaskUsers(task), expiration);
    && end == st.Until(ActiveUsers(Decoded(project)), st.Until(UserTasks(user), expiration))
    && user in st.Active(project) && st.Active(project)[user] >= end
  }

  predicate Sound(cfg: Config, st: Store, now: Time, user: Id, task: Id) {
    && Right(cfg, st, now, user, task)
    && (task in cfg.tasks && Locked(st, now, user, task) ==> Covered(cfg, st, user, task, st.Users(task)[user]))
  }

  ghost predicate Indexed(cfg: Config, st: Store, now: Time) {
    forall u, t :: Sound(cfg, st, now, u, t)
  }

  /** ---- What every reachable state keeps ---- */

  predicate OwnerTrue(cfg: Config, st: Store, task: Id) {
    task in st.owners ==> task in cfg.tasks && st.owners[task].project == cfg.tasks[task].project
  }

  // Only known tasks are locked, a task -> project key names the project of its task, and no hash
  // is past its deadline.
  ghost predicate Consistent(cfg: Config, st: Store, now: Time) {
    && (forall u :: st.Tasks(u).Keys <= cfg.tasks.Keys)
    && (forall t :: OwnerTrue(cfg, st, t))
    && Fresh(st, now)
  }

  lemma OneListed(cfg: Config, st: Store, now: Time, project: Id, u: Id, t: Id, e: Time)
    requires t in cfg.tasks && OwnerTrue(cfg, st, t)
    ensures (u, t, e) in Listed(cfg, st, now, project) <==>
              cfg.tasks[t].project == project && Shown(cfg, st, now, u, t) && st.Tasks(u)[t] == e
  {
    assert ProjectOf(cfg, st, now, t) == Some(cfg.tasks[t].project);
    if cfg.tasks[t].project == project && Shown(cfg, st, now, u, t) && st.Tasks(u)[t] == e {
      assert u in st.Active(project) && t in st.Tasks(u) && st.Tasks(u)[t] - now > 0.0;
    }
  }

  // The listing of a project is exact exactly when it is right about each user and task.
  lemma RightIsExact(cfg: Config, st: Store, now: Time, project: Id)
    requires Consistent(cfg, st, now) && forall u, t :: Right(cfg, st, now, u, t)
    ensures Exact(cfg, st, now, project)
  {
    forall u, t, e ensures (u, t, e) in Listed(cfg, st, now, project) <==> IsLocked(cfg, st, now, project, u, t, e) {
      assert OwnerTrue(cfg, st, t) && Right(cfg, st, now, u, t);
      assert st.Tasks(u).Keys <= cfg.tasks.Keys;
      if t in cfg.tasks { OneListed(cfg, st, now, project, u, t, e); }
    }
  }

  lemma ExactIsRight(cfg: Config, st: Store, now: Time, user: Id, task: Id)
    requires Consistent(cfg, st, now)
    requires task in cfg.tasks && Exact(cfg, st, now, cfg.tasks[task].project)
    ensures Right(cfg, st, now, user, task)
  {
    var project := cfg.tasks[task].project;
    assert OwnerTrue(cfg, st, task);
    if Locked(st, now, user, task) {
      var e := st.Users(task)[user];
      OneListed(cfg, st, now, project, user, task, e);
      assert IsLocked(cfg, st, now, project, user, task, e);
    }
    if Shown(cfg, st, now, user, task) {
      var e := st.Tasks(user)[task];
      OneListed(cfg, st, now, project, user, task, e);
      assert IsLocked(cfg, st, now, project, user, task, e);
    }
  }

  /** ---- Sweeping and waiting ---- */

  lemma PurgedKeepsConsistent(cfg: Config, st: Store, st1: Store, now: Time, key: Key)
    requires Consistent(cfg, st, now) && Purges(st, st1, now, key)
    ensures Consistent(cfg, st1, now)
  {
    forall u ensures st1.Tasks(u).Keys <= cfg.tasks.Keys { assert st.Tasks(u).Keys <= cfg.tasks.Keys; }
    forall t ensures OwnerTrue(cfg, st1, t) { assert OwnerTrue(cfg, st, t); }
    forall k ensures !IsLapsed(st1, now, k) { assert !IsLapsed(st, now, k); }
  }

  lemma PurgedKeepsSound(cfg: Config, st: Store, st1: Store, now: Time, key: Key, u: Id, t: Id)
    requires Fresh(st, now) && Sound(cfg, st, now, u, t) && Purges(st, st1, now, key)
    ensures Sound(cfg, st1, now, u, t)
  {
    if t in cfg.tasks {
      assert !IsLapsed(st, now, TaskUsers(t)) && !IsLapsed(st, now, UserTasks(u));
      var active := ActiveUsers(Decoded(cfg.tasks[t].project));
      assert !IsLapsed(st, now, active);
    }
  }

  lemma PurgeKeepsIndex(cfg: Config, st: Store, now: Time, key: Key)
    requires Consistent(cfg, st, now) && Indexed(cfg, st, now)
    ensures Consistent(cfg, Purge(st, now, key), now) && Indexed(cfg, Purge(st, now, key), now)
  {
    PurgeEffect(st, now, key);
    var st1 := Purge(st, now, key);
    PurgedKeepsConsistent(cfg, st, st1, now, key);
    forall u, t ensures Sound(cfg, st1, now, u, t) {
      assert Sound(cfg, st, now, u, t);
      PurgedKeepsSound(cfg, st, st1, now, key, u, t);
    }
  }

  lemma DroppedKeepsConsistent(cfg: Config, st: Store, st1: Store, now: Time, later: Time)
    requires Consistent(cfg, st, now) && later >= now && Drops(st, st1, later)
    ensures Consistent(cfg, st1, later)
  {
    forall u ensures st1.Tasks(u).Keys <= cfg.tasks.Keys { assert st.Tasks(u).Keys <= cfg.tasks.Keys; }
    forall t ensures OwnerTrue(cfg, st1, t) { assert OwnerTrue(cfg, st, t); }
  }

  lemma DroppedKeepsSound(cfg: Config, st: Store, st1: Store, now: Time, later: Time, u: Id, t: Id)
    requires Sound(cfg, st, now, u, t) && later >= now && Drops(st, st1, later)
    ensures Sound(cfg, st1, later, u, t)
  {
  }

  lemma DropKeepsIndex(cfg: Config, st: Store, now: Time, later: Time)
    requires Consistent(cfg, st, now) && Indexed(cfg, st, now) && later >= now
    ensures Consistent(cfg, Drop(st, later), later) && Indexed(cfg, Drop(st, later), later)
  {
    DropEffect(st, later);
    var st1 := Drop(st, later);
    DroppedKeepsConsistent(cfg, st, st1, now, later);
    forall u, t ensures Sound(cfg, st1, later, u, t) {
      assert Sound(cfg, st, now, u, t);
      DroppedKeepsSound(cfg, st, st1, now, later, u, t);
    }
  }

  /** ---- The listing stays exact exactly in such states ---- */

  lemma IndexedIsExact(cfg: Config, st: Store, now: Time, project: Id)
    requires Consistent(cfg, st, now) && Indexed(cfg, st, now)
    ensures Exact(cfg, st, now, project)
  {
    forall u, t ensures Right(cfg, st, now, u, t) { assert Sound(cfg, st, now, u, t); }
    RightIsExact(cfg, st, now, project);
  }

  lemma IndexedStaysExact(cfg: Config, st: Store, now: Time)
    requires Consistent(cfg, st, now) && Indexed(cfg, st, now)
    ensures StaysExact(cfg, st, now)
  {
    forall later, project | later >= now ensures ExactSwept(cfg, Drop(st, later), later, project) {
      DropKeepsIndex(cfg, st, now, later);
      IndexedIsExact(cfg, Drop(st, later), later, project);
      PurgeKeepsIndex(cfg, Drop(st, later), later, ActiveUsers(Decoded(project)));
      IndexedIsExact(cfg, Swept(Drop(st, later), later, project), later, project);
    }
  }

  lemma WrongIsNotExact(cfg: Config, st: Store, now: Time, user: Id, task: Id)
    requires Consistent(cfg, st, now) && task in cfg.tasks
    requires var project := cfg.tasks[task].project;
             !Right(cfg, st, now, user, task) || !Right(cfg, Swept(st, now, project), now, user, task)
    ensures !ExactSwept(cfg, st, now, cfg.tasks[task].project)
  {
    var project := cfg.tasks[task].project;
    if ExactSwept(cfg, st, now, project) {
      ExactIsRight(cfg, st, now, user, task);
      PurgeEffect(st, now, ActiveUsers(Decoded(project)));
      PurgedKeepsConsistent(cfg, st, Swept(st, now, project), now, ActiveUsers(Decoded(project)));
      ExactIsRight(cfg, Swept(st, now, project), now, user, task);
    }
  }

  // An instant at which the task's hash is there without the other two, or the other way round.
  lemma EndsApart(cfg: Config, st: Store, now: Time, user: Id, task: Id) returns (later: Time)
    requires Fresh(st, now) && task in cfg.tasks && Locked(st, now, user, task)
    requires var e := st.Users(task)[user];
             st.Until(TaskUsers(task), e)
               != st.Until(ActiveUsers(Decoded(cfg.tasks[task].project)), st.Until(UserTasks(user), e))
    ensures now <= later < st.Users(task)[user]
    ensures var active := ActiveUsers(Decoded(cfg.tasks[task].project));
            IsLapsed(st, later, TaskUsers(task)) <==> !(IsLapsed(st, later, UserTasks(user)) || IsLapsed(st, later, active))
  {
    var e, active := st.Users(task)[user], ActiveUsers(Decoded(cfg.tasks[task].project));
    assert !IsLapsed(st, now, TaskUsers(task)) && !IsLapsed(st, now, UserTasks(user)) && !IsLapsed(st, now, active);
    later := (st.Until(TaskUsers(task), e) + st.Until(active, st.Until(UserTasks(user), e))) / 2.0;
  }

  lemma ApartIsWrong(cfg: Config, st: Store, st1: Store, now: Time, later: Time, user: Id, task: Id)
    requires Right(cfg, st, now, user, task) && task in cfg.tasks && Locked(st, now, user, task)
    requires now <= later < st.Users(task)[user] && Drops(st, st1, later)
    requires var active := ActiveUsers(Decoded(cfg.tasks[task].project));
             IsLapsed(st, later, TaskUsers(task)) <==> !(IsLapsed(st, later, UserTasks(user)) || IsLapsed(st, later, active))
    ensures !Right(cfg, st1, later, user, task)
  {
  }

  lemma LeavesEarly(cfg: Config, st: Store, now: Time, user: Id, task: Id) returns (later: Time)
    requires Fresh(st, now) && Right(cfg, st, now, user, task) && task in cfg.tasks && Locked(st, now, user, task)
    requires st.Active(cfg.tasks[task].project)[user] < st.Until(TaskUsers(task), st.Users(task)[user])
    ensures now <= later < st.Users(task)[user] && later <= st.Until(TaskUsers(task), st.Users(task)[user])
    ensures later > st.Active(cfg.tasks[task].project)[user]
  {
    var end, last := st.Until(TaskUsers(task), st.Users(task)[user]), st.Active(cfg.tasks[task].project)[user];
    assert !IsLapsed(st, now, TaskUsers(task));
    later := if last < now then now else (last + end) / 2.0;
  }

  lemma LeavesWrong(cfg: Config, st: Store, st1: Store, st2: Store, later: Time, user: Id, task: Id)
    requires task in cfg.tasks && Locked(st, later, user, task) && later <= st.Until(TaskUsers(task), st.Users(task)[user])
    requires user in st.Active(cfg.tasks[task].project) ==> later > st.Active(cfg.tasks[task].project)[user]
    requires Drops(st, st1, later) && Purges(st1, st2, later, ActiveUsers(Decoded(cfg.tasks[task].project)))
    ensures !Right(cfg, st2, later, user, task)
  {
    assert Locked(st2, later, user, task);
  }

  // Otherwise there is an instant at which the listing of the task's project is wrong.
  lemma UnsoundIsWrong(cfg: Config, st: Store, now: Time, user: Id, task: Id) returns (later: Time)
    requires Consistent(cfg, st, now) && !Sound(cfg, st, now, user, task)
    ensures task in cfg.tasks && now <= later
    ensures later > now ==> Locked(st, now, user, task) && later < st.Users(task)[user]
    ensures !ExactSwept(cfg, Drop(st, later), later, cfg.tasks[task].project)
  {
    var project := cfg.tasks[task].project;
    if !Right(cfg, st, now, user, task) {
      later := now;
      DropEffect(st, now);
      assert forall k :: !IsLapsed(st, now, k);
      assert !Right(cfg, Drop(st, now), now, user, task);
    } else if user in st.Active(project) && st.Active(project)[user] < st.Until(TaskUsers(task), st.Users(task)[user]) {
      later := LeavesEarly(cfg, st, now, user, task);
      DropEffect(st, later);
      PurgeEffect(Drop(st, later), later, ActiveUsers(Decoded(project)));
      LeavesWrong(cfg, st, Drop(st, later), Swept(Drop(st, later), later, project), later, user, task);
    } else {
      later := EndsApart(cfg, st, now, user, task);
      DropEffect(st, later);
      ApartIsWrong(cfg, st, Drop(st, later), now, later, user, task);
    }
    DropEffect(st, later);
    DroppedKeepsConsistent(cfg, st, Drop(st, later), now, later);
    WrongIsNotExact(cfg, Drop(st, later), later, user, task);
  }

  // The listing stays exact exactly when every lock is covered by the user's records and activity.
  lemma StaysExactIff(cfg: Config, st: Store, now: Time)
    requires Consistent(cfg, st, now)
    ensures StaysExact(cfg, st, now) <==> Indexed(cfg, st, now)
  {
    if Indexed(cfg, st, now) {
      IndexedStaysExact(cfg, st, now);
    } else {
      var u, t :| !Sound(cfg, st, now, u, t);
      var later := UnsoundIsWrong(cfg, st, now, u, t);
    }
  }

  /** ---- Releases ---- */

  // What is recorded lasts as long as the grace entries.
  predicate ReleaseCovered(cfg: Config, st: Store, now: Time, task: Id, user: Id)
    requires task in cfg.tasks
  {
    Covered(cfg, st, user, task, now + EXPIRE_LOCK_DELAY)
  }

  lemma ReleasedKeepsConsistent(cfg: Config, st: Store, st1: Store, now: Time, task: Id, user: Id, name: ProjectName)
    requires Consistent(cfg, st, now) && Releases(st, st1, now, task, user, name) && task in cfg.tasks
    ensures Consistent(cfg, st1, now)
  {
    forall u ensures st1.Tasks(u).Keys <= cfg.tasks.Keys { assert st.Tasks(u).Keys <= cfg.tasks.Keys; }
    forall t ensures OwnerTrue(cfg, st1, t) { assert OwnerTrue(cfg, st, t); }
    forall k ensures !IsLapsed(st1, now, k) { assert !IsLapsed(st, now, k) && st1.Lease(k) == st.Lease(k); }
  }

  lemma ReleaseKeepsConsistent(cfg: Config, st: Store, now: Time, task: Id, user: Id)
    requires Consistent(cfg, st, now) && task in cfg.tasks
    ensures Consistent(cfg, ReleaseLock(st, now, task, user), now)
  {
    ReleaseLockEffect(st, now, task, user);
    ReleasedKeepsConsistent(cfg, st, ReleaseLock(st, now, task, user), now, task, user, Raw(st.OwnerOf(task, now)));
  }

  lemma ReleasedIsSoundIff(cfg: Config, st: Store, st1: Store, now: Time, task: Id, user: Id, name: ProjectName)
    requires Releases(st, st1, now, task, user, name) && task in cfg.tasks
    ensures Sound(cfg, st1, now, user, task) <==> ReleaseCovered(cfg, st, now, task, user)
  {
    assert st1.Users(task)[user] == now + EXPIRE_LOCK_DELAY == st1.Tasks(user)[task];
  }

  lemma OthersStaySound(cfg: Config, st: Store, st1: Store, now: Time, task: Id, user: Id, name: ProjectName, u: Id, t: Id)
    requires Sound(cfg, st, now, u, t) && Releases(st, st1, now, task, user, name)
    requires u != user || t != task
    ensures Sound(cfg, st1, now, u, t)
  {
  }

  // A release keeps the index exactly when the user's activity and both other hashes last as long as
  // the task's hash keeps the grace entry: the release itself touches no deadline and no activity.
  lemma ReleaseKeepsIndexIff(cfg: Config, st: Store, now: Time, task: Id, user: Id)
    requires Indexed(cfg, st, now) && task in cfg.tasks
    ensures Indexed(cfg, ReleaseLock(st, now, task, user), now) <==> ReleaseCovered(cfg, st, now, task, user)
  {
    var name := Raw(st.OwnerOf(task, now));
    ReleaseLockEffect(st, now, task, user);
    var st1 := ReleaseLock(st, now, task, user);
    ReleasedIsSoundIff(cfg, st, st1, now, task, user, name);
    if ReleaseCovered(cfg, st, now, task, user) {
      forall u, t ensures Sound(cfg, st1, now, u, t) {
        assert Sound(cfg, st, now, u, t);
        if u != user || t != task { OthersStaySound(cfg, st, st1, now, task, user, name, u, t); }
      }
    }
  }

  // Releasing while the lock still has the grace period left is always covered.
  lemma EarlyReleaseIsCovered(cfg: Config, st: Store, now: Time, task: Id, user: Id)
    requires Indexed(cfg, st, now) && task in cfg.tasks && user in st.Users(task)
    requires st.Until(TaskUsers(task), st.Users(task)[user]) >= now + EXPIRE_LOCK_DELAY
    ensures ReleaseCovered(cfg, st, now, task, user)
  {
    assert Sound(cfg, st, now, user, task);
  }

  // After an uncovered release there is an instant of the grace period at which the listing is wrong.
  lemma UncoveredReleaseIsLost(cfg: Config, st: Store, now: Time, task: Id, user: Id) returns (later: Time)
    requires Consistent(cfg, st, now) && task in cfg.tasks && !ReleaseCovered(cfg, st, now, task, user)
    ensures now <= later < now + EXPIRE_LOCK_DELAY
    ensures !ExactSwept(cfg, Drop(ReleaseLock(st, now, task, user), later), later, cfg.tasks[task].project)
  {
    var name := Raw(st.OwnerOf(task, now));
    ReleaseLockEffect(st, now, task, user);
    var st1 := ReleaseLock(st, now, task, user);
    ReleasedKeepsConsistent(cfg, st, st1, now, task, user, name);
    ReleasedIsSoundIff(cfg, st, st1, now, task, user, name);
    later := UnsoundIsWrong(cfg, st1, now, user, task);
  }

  /** ---- Grants ---- */

  lemma GrantedKeepsConsistent(cfg: Config, st: Store, st1: Store, now: Time, timeout: Time, project: Id, user: Id, row: Candidate)
    requires Consistent(cfg, st, now) && Grants(st, st1, now, timeout, project, user, row) && timeout > 0.0
    requires row.task in cfg.tasks && cfg.tasks[row.task].project == project
    ensures Consistent(cfg, st1, now)
  {
    forall u ensures st1.Tasks(u).Keys <= cfg.tasks.Keys { assert st.Tasks(u).Keys <= cfg.tasks.Keys; }
    forall t ensures OwnerTrue(cfg, st1, t) { assert OwnerTrue(cfg, st, t); }
    forall k ensures !IsLapsed(st1, now, k) { assert !IsLapsed(st, now, k); }
  }

  predicate NewForTask(st: Store, now: Time, user: Id, task: Id) {
    user !in Sweep(st.Users(task), now)
  }

  predicate NewForUser(st: Store, now: Time, user: Id, task: Id) {
    task !in Sweep(st.Tasks(user), now)
  }

  // The deadlines and the activity that a grant sets.
  function Renewed(st: Store, now: Time, timeout: Time, project: Id, user: Id, task: Id): Store {
    var st1 := if NewForTask(st, now, user, task) then st.Expire(TaskUsers(task), now + timeout) else st;
    var st2 := if NewForUser(st, now, user, task) then st1.Expire(UserTasks(user), now + timeout) else st1;
    AddActive(st2, now, timeout, project, user)
  }

  // Both hashes take the lock up, or one has it already with the same end.
  predicate TakenUpTogether(st: Store, now: Time, timeout: Time, user: Id, task: Id) {
    if NewForUser(st, now, user, task) then NewForTask(st, now, user, task)
    else NewForTask(st, now, user, task) ==>
           st.Tasks(user)[task] == now + timeout && st.Until(UserTasks(user), now + timeout) == now + timeout
  }

  // The user becomes active in the project, so whatever the user's hash holds for it is shown.
  predicate IsReal(cfg: Config, st: Store, now: Time, project: Id, user: Id, task: Id, t: Id) {
    t in cfg.tasks && cfg.tasks[t].project == project && t in st.Tasks(user) && st.Tasks(user)[t] > now ==>
      Locked(st, now, user, t) || (t == task && NewForTask(st, now, user, task))
  }

  predicate StaysCovered(cfg: Config, st: Store, now: Time, timeout: Time, project: Id, user: Id, task: Id, u: Id, t: Id) {
    t in cfg.tasks && Locked(st, now, u, t) ==>
      Covered(cfg, Renewed(st, now, timeout, project, user, task), u, t, st.Users(t)[u])
  }

  // Every lock that holds is covered by the deadlines that the grant sets.
  ghost predicate GrantCovered(cfg: Config, st: Store, now: Time, timeout: Time, project: Id, user: Id, task: Id) {
    && TakenUpTogether(st, now, timeout, user, task)
    && (forall t :: IsReal(cfg, st, now, project, user, task, t))
    && forall u, t :: StaysCovered(cfg, st, now, timeout, project, user, task, u, t)
  }

  lemma RenewedLeases(st: Store, now: Time, timeout: Time, project: Id, user: Id, task: Id, k: Key)
    ensures var st1 := Renewed(st, now, timeout, project, user, task);
            && st1.Lease(k) == (if (k == TaskUsers(task) && NewForTask(st, now, user, task)) ||
                                   (k == UserTasks(user) && NewForUser(st, now, user, task)) ||
                                   k == ActiveUsers(Decoded(project)) then Some(now + timeout) else st.Lease(k))
            && st1.Entries(k) == if k == ActiveUsers(Decoded(project)) then st.Entries(k)[user := now + timeout] else st.Entries(k)
  {
  }

  // What a grant does to the deadline of a hash that is not left empty.
  lemma GrantedLease(st: Store, st1: Store, now: Time, timeout: Time, project: Id, user: Id, row: Candidate, k: Key)
    requires Grants(st, st1, now, timeout, project, user, row) && Granted(st, now, timeout, user, row)
    requires Sweep(st.Entries(k), now) != map[] || k == ActiveUsers(Decoded(project))
    ensures st1.Lease(k) == Renewed(st, now, timeout, project, user, row.task).Lease(k)
  {
    RenewedLeases(st, now, timeout, project, user, row.task, k);
  }

  lemma GrantedActive(st: Store, st1: Store, now: Time, timeout: Time, project: Id, user: Id, row: Candidate, k: Key)
    requires Grants(st, st1, now, timeout, project, user, row) && Granted(st, now, timeout, user, row)
    requires k.ActiveUsers?
    ensures st1.Entries(k) == Renewed(st, now, timeout, project, user, row.task).Entries(k)
    ensures st1.Lease(k) == Renewed(st, now, timeout, project, user, row.task).Lease(k)
  {
    RenewedLeases(st, now, timeout, project, user, row.task, k);
  }

  lemma CoveredAlike(cfg: Config, st: Store, st1: Store, now: Time, timeout: Time, project: Id, user: Id, row: Candidate,
                     u: Id, t: Id, e: Time)
    requires Grants(st, st1, now, timeout, project, user, row) && Granted(st, now, timeout, user, row)
    requires t in cfg.tasks && Locked(st, now, u, t) && t in st.Tasks(u) && st.Tasks(u)[t] > now
    ensures Covered(cfg, st1, u, t, e) <==> Covered(cfg, Renewed(st, now, timeout, project, user, row.task), u, t, e)
  {
    assert u in Sweep(st.Users(t), now) && t in Sweep(st.Tasks(u), now);
    GrantedLease(st, st1, now, timeout, project, user, row, TaskUsers(t));
    GrantedLease(st, st1, now, timeout, project, user, row, UserTasks(u));
    GrantedActive(st, st1, now, timeout, project, user, row, ActiveUsers(Decoded(cfg.tasks[t].project)));
  }

  lemma OtherIsSoundIff(cfg: Config, st: Store, st1: Store, now: Time, timeout: Time, project: Id, user: Id, row: Candidate,
                        u: Id, t: Id)
    requires Sound(cfg, st, now, u, t) && (u != user || t != row.task)
    requires Grants(st, st1, now, timeout, project, user, row) && Granted(st, now, timeout, user, row)
    ensures Sound(cfg, st1, now, u, t) <==>
              (u == user ==> IsReal(cfg, st, now, project, user, row.task, t)) &&
              StaysCovered(cfg, st, now, timeout, project, user, row.task, u, t)
  {
    assert Locked(st1, now, u, t) <==> Locked(st, now, u, t);
    assert Locked(st, now, u, t) ==> st1.Users(t)[u] == st.Users(t)[u];
    assert (t in st1.Tasks(u) && st1.Tasks(u)[t] > now) <==> (t in st.Tasks(u) && st.Tasks(u)[t] > now);
    if t in cfg.tasks && Locked(st, now, u, t) {
      CoveredAlike(cfg, st, st1, now, timeout, project, user, row, u, t, st.Users(t)[u]);
    }
  }

  // The lock that is granted.
  lemma NewIsSoundIff(cfg: Config, st: Store, st1: Store, now: Time, timeout: Time, project: Id, user: Id, row: Candidate)
    requires Grants(st, st1, now, timeout, project, user, row) && Granted(st, now, timeout, user, row)
    requires row.task in cfg.tasks && cfg.tasks[row.task].project == project && timeout > 0.0
    requires NewForTask(st, now, user, row.task)
    ensures Sound(cfg, st1, now, user, row.task) <==> TakenUpTogether(st, now, timeout, user, row.task)
  {
    assert st1.Users(row.task)[user] == now + timeout;
  }

  lemma HeldIsSoundIff(cfg: Config, st: Store, st1: Store, now: Time, timeout: Time, project: Id, user: Id, row: Candidate)
    requires Sound(cfg, st, now, user, row.task)
    requires Grants(st, st1, now, timeout, project, user, row) && Granted(st, now, timeout, user, row)
    requires row.task in cfg.tasks && cfg.tasks[row.task].project == project && timeout > 0.0
    requires !NewForTask(st, now, user, row.task)
    ensures Sound(cfg, st1, now, user, row.task) <==>
              TakenUpTogether(st, now, timeout, user, row.task) &&
              IsReal(cfg, st, now, project, user, row.task, row.task) &&
              StaysCovered(cfg, st, now, timeout, project, user, row.task, user, row.task)
  {
    assert st1.Users(row.task)[user] == st.Users(row.task)[user] >= now;
    if Locked(st, now, user, row.task) {
      CoveredAlike(cfg, st, st1, now, timeout, project, user, row, user, row.task, st.Users(row.task)[user]);
    }
  }

  lemma RefusedPurges(st: Store, st1: Store, now: Time, timeout: Time, project: Id, user: Id, row: Candidate)
    requires Grants(st, st1, now, timeout, project, user, row) && !Granted(st, now, timeout, user, row)
    ensures Purges(st, st1, now, TaskUsers(row.task))
  {
  }

  lemma GrantedIsSoundIff(cfg: Config, st: Store, st1: Store, now: Time, timeout: Time, project: Id, user: Id, row: Candidate)
    requires Sound(cfg, st, now, user, row.task)
    requires Grants(st, st1, now, timeout, project, user, row) && Granted(st, now, timeout, user, row)
    requires row.task in cfg.tasks && cfg.tasks[row.task].project == project && timeout > 0.0
    ensures Sound(cfg, st1, now, user, row.task) <==>
              TakenUpTogether(st, now, timeout, user, row.task) &&
              IsReal(cfg, st, now, project, user, row.task, row.task) &&
              StaysCovered(cfg, st, now, timeout, project, user, row.task, user, row.task)
  {
    if NewForTask(st, now, user, row.task) {
      NewIsSoundIff(cfg, st, st1, now, timeout, project, user, row);
      assert !Locked(st, now, user, row.task);
    } else {
      HeldIsSoundIff(cfg, st, st1, now, timeout, project, user, row);
    }
  }

  lemma GrantedKeepsIndexIff(cfg: Config, st: Store, st1: Store, now: Time, timeout: Time, project: Id, user: Id, row: Candidate)
    requires Indexed(cfg, st, now)
    requires Grants(st, st1, now, timeout, project, user, row) && Granted(st, now, timeout, user, row)
    requires row.task in cfg.tasks && cfg.tasks[row.task].project == project && timeout > 0.0
    ensures Indexed(cfg, st1, now) <==> GrantCovered(cfg, st, now, timeout, project, user, row.task)
  {
    assert Sound(cfg, st, now, user, row.task);
    GrantedIsSoundIff(cfg, st, st1, now, timeout, project, user, row);
    forall u, t | u != user || t != row.task
      ensures Sound(cfg, st1, now, u, t) <==>
                (u == user ==> IsReal(cfg, st, now, project, user, row.task, t)) &&
                StaysCovered(cfg, st, now, timeout, project, user, row.task, u, t)
    {
      assert Sound(cfg, st, now, u, t);
      OtherIsSoundIff(cfg, st, st1, now, timeout, project, user, row, u, t);
    }
    if Indexed(cfg, st1, now) {
      forall t ensures IsReal(cfg, st, now, project, user, row.task, t) { assert Sound(cfg, st1, now, user, t); }
      forall u, t ensures StaysCovered(cfg, st, now, timeout, project, user, row.task, u, t) { assert Sound(cfg, st1, now, u, t); }
    }
    if GrantCovered(cfg, st, now, timeout, project, user, row.task) {
      forall u, t ensures Sound(cfg, st1, now, u, t) {
        assert StaysCovered(cfg, st, now, timeout, project, user, row.task, u, t);
        assert IsReal(cfg, st, now, project, user, row.task, t);
      }
    }
  }

  // Granting a task keeps the index exactly when the lock is taken up together and the deadlines and
  // the activity that are set suit every lock that holds.
  lemma GrantKeepsIndexIff(cfg: Config, st: Store, now: Time, timeout: Time, project: Id, user: Id, row: Candidate)
    requires Consistent(cfg, st, now) && Indexed(cfg, st, now)
    requires row.task in cfg.tasks && cfg.tasks[row.task].project == project && timeout > 0.0
    ensures var r := Grant(st, now, timeout, project, user, row);
            Indexed(cfg, r.store, now) <==> (r.granted ==> GrantCovered(cfg, st, now, timeout, project, user, row.task))
  {
    GrantEffect(st, now, timeout, project, user, row);
    var st1 := Grant(st, now, timeout, project, user, row).store;
    if Granted(st, now, timeout, user, row) {
      GrantedKeepsIndexIff(cfg, st, st1, now, timeout, project, user, row);
    } else {
      RefusedPurges(st, st1, now, timeout, project, user, row);
      forall u, t ensures Sound(cfg, st1, now, u, t) {
        assert Sound(cfg, st, now, u, t);
        PurgedKeepsSound(cfg, st, st1, now, TaskUsers(row.task), u, t);
      }
    }
  }

  /** ---- Requests ---- */

  ghost predicate RowsOf(cfg: Config, project: Id, rows: seq<Candidate>) {
    forall i | 0 <= i < |rows| :: rows[i].task in cfg.tasks && cfg.tasks[rows[i].task].project == project
  }

  // The candidate that is granted, if any, is covered when its turn comes.
  ghost predicate RowsCovered(cfg: Config, st: Store, now: Time, timeout: Time, project: Id, user: Id, rows: seq<Candidate>)
    decreases |rows|
  {
    rows != [] ==>
      var first := Grant(st, now, timeout, project, user, rows[0]);
      if first.granted then GrantCovered(cfg, st, now, timeout, project, user, rows[0].task)
      else RowsCovered(cfg, first.store, now, timeout, project, user, rows[1..])
  }

  lemma GrantKeepsConsistent(cfg: Config, st: Store, now: Time, timeout: Time, project: Id, user: Id, row: Candidate)
    requires Consistent(cfg, st, now) && timeout > 0.0
    requires row.task in cfg.tasks && cfg.tasks[row.task].project == project
    ensures Consistent(cfg, Grant(st, now, timeout, project, user, row).store, now)
  {
    GrantEffect(st, now, timeout, project, user, row);
    GrantedKeepsConsistent(cfg, st, Grant(st, now, timeout, project, user, row).store, now, timeout, project, user, row);
  }

  lemma {:induction false} FirstGrantKeepsConsistent(cfg: Config, st: Store, now: Time, timeout: Time, project: Id, user: Id,
                                                     rows: seq<Candidate>)
    requires Consistent(cfg, st, now) && timeout > 0.0 && RowsOf(cfg, project, rows)
    ensures Consistent(cfg, FirstGrant(st, now, timeout, project, user, rows).store, now)
    decreases |rows|
  {
    if rows != [] {
      GrantKeepsConsistent(cfg, st, now, timeout, project, user, rows[0]);
      var first := Grant(st, now, timeout, project, user, rows[0]);
      if !first.granted {
        FirstGrantKeepsConsistent(cfg, first.store, now, timeout, project, user, rows[1..]);
      }
    }
  }

  lemma {:induction false} FirstGrantKeepsIndexIff(cfg: Config, st: Store, now: Time, timeout: Time, project: Id, user: Id,
                                                   rows: seq<Candidate>)
    requires Consistent(cfg, st, now) && Indexed(cfg, st, now) && timeout > 0.0 && RowsOf(cfg, project, rows)
    ensures Indexed(cfg, FirstGrant(st, now, timeout, project, user, rows).store, now) <==>
              RowsCovered(cfg, st, now, timeout, project, user, rows)
    decreases |rows|
  {
    if rows != [] {
      GrantKeepsIndexIff(cfg, st, now, timeout, project, user, rows[0]);
      GrantKeepsConsistent(cfg, st, now, timeout, project, user, rows[0]);
      var first := Grant(st, now, timeout, project, user, rows[0]);
      if !first.granted {
        FirstGrantKeepsIndexIff(cfg, first.store, now, timeout, project, user, rows[1..]);
      }
    }
  }

  // The store that the candidates of a request are tried on.
  function Ready(cfg: Config, st: Store, now: Time, project: Id, user: Id, saved: bool): Store {
    Swept(if saved then st else Remember(cfg, st, now, user), now, project)
  }

  lemma RememberKeepsConsistent(cfg: Config, st: Store, now: Time, user: Id)
    requires Consistent(cfg, st, now)
    ensures Consistent(cfg, Remember(cfg, st, now, user), now)
  {
    var st1 := Remember(cfg, st, now, user);
    forall u ensures st1.Tasks(u).Keys <= cfg.tasks.Keys { assert st.Tasks(u).Keys <= cfg.tasks.Keys; }
    forall t ensures OwnerTrue(cfg, st1, t) { assert OwnerTrue(cfg, st, t); }
    forall k ensures !IsLapsed(st1, now, k) { assert !IsLapsed(st, now, k); }
  }

  lemma RememberKeepsIndex(cfg: Config, st: Store, now: Time, user: Id)
    requires Indexed(cfg, st, now)
    ensures Indexed(cfg, Remember(cfg, st, now, user), now)
  {
    forall u, t ensures Sound(cfg, Remember(cfg, st, now, user), now, u, t) { assert Sound(cfg, st, now, u, t); }
  }

  lemma ReadyIsConsistent(cfg: Config, st: Store, now: Time, project: Id, user: Id, saved: bool)
    requires Consistent(cfg, st, now)
    ensures Consistent(cfg, Ready(cfg, st, now, project, user, saved), now)
  {
    RememberKeepsConsistent(cfg, st, now, user);
    var st1 := if saved then st else Remember(cfg, st, now, user);
    PurgeEffect(st1, now, ActiveUsers(Decoded(project)));
    PurgedKeepsConsistent(cfg, st1, Swept(st1, now, project), now, ActiveUsers(Decoded(project)));
  }

  lemma ReadyIsIndexed(cfg: Config, st: Store, now: Time, project: Id, user: Id, saved: bool)
    requires Consistent(cfg, st, now) && Indexed(cfg, st, now)
    ensures Indexed(cfg, Ready(cfg, st, now, project, user, saved), now)
  {
    RememberKeepsConsistent(cfg, st, now, user);
    RememberKeepsIndex(cfg, st, now, user);
    PurgeKeepsIndex(cfg, if saved then st else Remember(cfg, st, now, user), now, ActiveUsers(Decoded(project)));
  }

  predicate HandsOut(s: System, step: Step)
    requires step.Request?
  {
    !step.saved && Reusable(s.store, s.clock, step.user, step.best)
  }

  lemma RowsAreOfProject(cfg: Config, s: System, step: Step)
    requires Enabled(cfg, s, step) && step.Request?
    ensures RowsOf(cfg, step.project, step.rows)
  {
    forall i | 0 <= i < |step.rows|
      ensures step.rows[i].task in cfg.tasks && cfg.tasks[step.rows[i].task].project == step.project
    {
      assert Current(cfg, s, step.project, step.rows[i]);
    }
  }

  lemma RequestKeepsConsistent(cfg: Config, s: System, step: Step)
    requires Consistent(cfg, s.store, s.clock) && Enabled(cfg, s, step) && step.Request?
    ensures Consistent(cfg, Next(cfg, s, step).store, s.clock)
  {
    RowsAreOfProject(cfg, s, step);
    RememberKeepsConsistent(cfg, s.store, s.clock, step.user);
    if !HandsOut(s, step) {
      ReadyIsConsistent(cfg, s.store, s.clock, step.project, step.user, step.saved);
      FirstGrantKeepsConsistent(cfg, Ready(cfg, s.store, s.clock, step.project, step.user, step.saved), s.clock,
                                step.timeout, step.project, step.user, step.rows);
    }
  }

  ghost predicate RequestCovered(cfg: Config, s: System, step: Step)
    requires step.Request?
  {
    HandsOut(s, step) ||
    RowsCovered(cfg, Ready(cfg, s.store, s.clock, step.project, step.user, step.saved), s.clock,
                step.timeout, step.project, step.user, step.rows)
  }

  lemma RequestKeepsIndexIff(cfg: Config, s: System, step: Step)
    requires Consistent(cfg, s.store, s.clock) && Indexed(cfg, s.store, s.clock)
    requires Enabled(cfg, s, step) && step.Request?
    ensures Indexed(cfg, Next(cfg, s, step).store, s.clock) <==> RequestCovered(cfg, s, step)
  {
    RowsAreOfProject(cfg, s, step);
    if HandsOut(s, step) {
      RememberKeepsIndex(cfg, s.store, s.clock, step.user);
    } else {
      ReadyIsConsistent(cfg, s.store, s.clock, step.project, step.user, step.saved);
      ReadyIsIndexed(cfg, s.store, s.clock, step.project, step.user, step.saved);
      FirstGrantKeepsIndexIff(cfg, Ready(cfg, s.store, s.clock, step.project, step.user, step.saved), s.clock,
                              step.timeout, step.project, step.user, step.rows);
    }
  }

  /** ---- Over whole runs ---- */

  // The row that a direct request amounts to.
  function DirectRow(cfg: Config, s: System, step: Step): Candidate
    requires step.DirectRequest? && step.task in cfg.tasks
  {
    Candidate(step.task, |s.RunsOf(step.task)|, cfg.tasks[step.task].answers, cfg.tasks[step.task].gold, step.gotMutex)
  }

  ghost predicate DirectRequestCovered(cfg: Config, s: System, step: Step)
    requires step.DirectRequest? && step.task in cfg.tasks
  {
    !OverAnswered(cfg, s, step.task) && Granted(s.store, s.clock, step.timeout, step.user, DirectRow(cfg, s, step)) ==>
      GrantCovered(cfg, s.store, s.clock, step.timeout, cfg.tasks[step.task].project, step.user, step.task)
  }

  ghost predicate StepCovered(cfg: Config, s: System, step: Step)
    requires Enabled(cfg, s, step)
  {
    match step
    case Request(_, _, _, _, _, _) => RequestCovered(cfg, s, step)
    case DirectRequest(_, _, _, _) => DirectRequestCovered(cfg, s, step)
    case Submit(user, task) => ReleaseCovered(cfg, s.store, s.clock, task, user)
    case Cancel(user, task) => ReleaseCovered(cfg, s.store, s.clock, task, user)
    case _ => true
  }

  // Every grant and every release of the run is covered when it happens.
  ghost predicate AllCovered(cfg: Config, s: System, steps: seq<Step>)
    requires Possible(cfg, s, steps)
    decreases |steps|
  {
    steps == [] || (StepCovered(cfg, s, steps[0]) && AllCovered(cfg, Next(cfg, s, steps[0]), steps[1..]))
  }

  lemma DirectRequestKeepsConsistent(cfg: Config, s: System, step: Step)
    requires Consistent(cfg, s.store, s.clock) && Enabled(cfg, s, step) && step.DirectRequest?
    ensures Consistent(cfg, Next(cfg, s, step).store, s.clock)
  {
    GrantKeepsConsistent(cfg, s.store, s.clock, step.timeout, cfg.tasks[step.task].project, step.user, DirectRow(cfg, s, step));
  }

  lemma DirectRequestKeepsIndexIff(cfg: Config, s: System, step: Step)
    requires Consistent(cfg, s.store, s.clock) && Indexed(cfg, s.store, s.clock)
    requires Enabled(cfg, s, step) && step.DirectRequest?
    ensures Indexed(cfg, Next(cfg, s, step).store, s.clock) <==> DirectRequestCovered(cfg, s, step)
  {
    var project, row := cfg.tasks[step.task].project, DirectRow(cfg, s, step);
    GrantEffect(s.store, s.clock, step.timeout, project, step.user, row);
    GrantKeepsIndexIff(cfg, s.store, s.clock, step.timeout, project, step.user, row);
  }

  lemma StepKeepsConsistent(cfg: Config, s: System, step: Step)
    requires Consistent(cfg, s.store, s.clock) && Enabled(cfg, s, step)
    ensures var s1 := Next(cfg, s, step); Consistent(cfg, s1.store, s1.clock)
  {
    match step
    case Request(_, _, _, _, _, _) => RequestKeepsConsistent(cfg, s, step);
    case DirectRequest(_, _, _, _) => DirectRequestKeepsConsistent(cfg, s, step);
    case Submit(user, task) => ReleaseKeepsConsistent(cfg, s.store, s.clock, task, user);
    case Cancel(user, task) => ReleaseKeepsConsistent(cfg, s.store, s.clock, task, user);
    case Expunge(key) =>
      PurgeEffect(s.store, s.clock, key);
      PurgedKeepsConsistent(cfg, s.store, Purge(s.store, s.clock, key), s.clock, key);
    case Tick(elapsed) =>
      DropEffect(s.store, s.clock + elapsed);
      DroppedKeepsConsistent(cfg, s.store, Drop(s.store, s.clock + elapsed), s.clock, s.clock + elapsed);
  }

  lemma StepKeepsIndexIff(cfg: Config, s: System, step: Step)
    requires Consistent(cfg, s.store, s.clock) && Indexed(cfg, s.store, s.clock) && Enabled(cfg, s, step)
    ensures var s1 := Next(cfg, s, step); Indexed(cfg, s1.store, s1.clock) <==> StepCovered(cfg, s, step)
  {
    match step
    case Request(_, _, _, _, _, _) => RequestKeepsIndexIff(cfg, s, step);
    case DirectRequest(_, _, _, _) => DirectRequestKeepsIndexIff(cfg, s, step);
    case Submit(user, task) => ReleaseKeepsIndexIff(cfg, s.store, s.clock, task, user);
    case Cancel(user, task) => ReleaseKeepsIndexIff(cfg, s.store, s.clock, task, user);
    case Expunge(key) => PurgeKeepsIndex(cfg, s.store, s.clock, key);
    case Tick(elapsed) => DropKeepsIndex(cfg, s.store, s.clock, s.clock + elapsed);
  }

  // Over every run, covered or not, only known tasks are locked and a task -> project key names the
  // project of its task.
  lemma {:induction false} RunKeepsConsistent(cfg: Config, s: System, steps: seq<Step>)
    requires Consistent(cfg, s.store, s.clock) && Possible(cfg, s, steps)
    ensures var end := After(cfg, s, steps); Consistent(cfg, end.store, end.clock)
    decreases |steps|
  {
    if steps != [] {
      StepKeepsConsistent(cfg, s, steps[0]);
      RunKeepsConsistent(cfg, Next(cfg, s, steps[0]), steps[1..]);
    }
  }

  lemma {:induction false} RunKeepsIndex(cfg: Config, s: System, steps: seq<Step>)
    requires Consistent(cfg, s.store, s.clock) && Indexed(cfg, s.store, s.clock)
    requires Possible(cfg, s, steps) && AllCovered(cfg, s, steps)
    ensures var end := After(cfg, s, steps); Indexed(cfg, end.store, end.clock)
    decreases |steps|
  {
    if steps != [] {
      StepKeepsConsistent(cfg, s, steps[0]);
      StepKeepsIndexIff(cfg, s, steps[0]);
      RunKeepsIndex(cfg, Next(cfg, s, steps[0]), steps[1..]);
    }
  }

  lemma InitiallyIndexed(cfg: Config, s: System)
    requires Initial(s)
    ensures Consistent(cfg, s.store, s.clock) && Indexed(cfg, s.store, s.clock)
  {
  }

  // After every covered run the listing of a project is exactly the unexpired locks of its tasks.
  lemma ListingIsExactOverRuns(cfg: Config, s: System, steps: seq<Step>, project: Id)
    requires Initial(s) && Possible(cfg, s, steps) && AllCovered(cfg, s, steps)
    ensures var end := After(cfg, s, steps); Exact(cfg, end.store, end.clock, project)
  {
    InitiallyIndexed(cfg, s);
    RunKeepsConsistent(cfg, s, steps);
    RunKeepsIndex(cfg, s, steps);
    var end := After(cfg, s, steps);
    IndexedIsExact(cfg, end.store, end.clock, project);
  }

  // At every point of the run the listing stays exact until the next step.
  ghost predicate AlwaysExact(cfg: Config, s: System, steps: seq<Step>)
    requires Possible(cfg, s, steps)
    decreases |steps|
  {
    StaysExact(cfg, s.store, s.clock) && (steps == [] || AlwaysExact(cfg, Next(cfg, s, steps[0]), steps[1..]))
  }

  lemma {:induction false} AlwaysExactFromIff(cfg: Config, s: System, steps: seq<Step>)
    requires Consistent(cfg, s.store, s.clock) && Indexed(cfg, s.store, s.clock) && Possible(cfg, s, steps)
    ensures AlwaysExact(cfg, s, steps) <==> AllCovered(cfg, s, steps)
    decreases |steps|
  {
    IndexedStaysExact(cfg, s.store, s.clock);
    if steps != [] {
      var s1 := Next(cfg, s, steps[0]);
      StepKeepsConsistent(cfg, s, steps[0]);
      StepKeepsIndexIff(cfg, s, steps[0]);
      if StepCovered(cfg, s, steps[0]) {
        AlwaysExactFromIff(cfg, s1, steps[1..]);
      } else {
        StaysExactIff(cfg, s1.store, s1.clock);
      }
    }
  }

  // The listing is exact throughout a run exactly when every grant and release of it is covered.
  lemma AlwaysExactIff(cfg: Config, s: System, steps: seq<Step>)
    requires Initial(s) && Possible(cfg, s, steps)
    ensures AlwaysExact(cfg, s, steps) <==> AllCovered(cfg, s, steps)
  {
    InitiallyIndexed(cfg, s);
    AlwaysExactFromIff(cfg, s, steps);
  }
}
