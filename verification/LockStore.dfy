/**
 The Redis keys of the lock protocol and what the scheduler's operations do to them.

 A lock lives in two hashes, task -> users and user -> tasks. Beside them, each
 project has a hash of active users, and each task a key naming its project. A hash
 may carry a deadline, after which Redis drops it with all its entries.
 */
module LockStore {
  import opened Options
  import opened LockTable

  // What an active-users key is formatted from: a project id, the undecoded bytes of one as
  // they come from Redis, or the None of a key that has expired. The three give three keys.
  datatype ProjectName = Decoded(id: Id) | Undecoded(id: Id) | Missing

  datatype Key = TaskUsers(task: Id) | UserTasks(user: Id) | ActiveUsers(project: ProjectName)

  // A task -> project key and the instant after which Redis no longer shows it.
  datatype Owner = Owner(project: Id, until: Time)

  datatype Store = Store(hashes: map<Key, Table>, deadlines: map<Key, Time>, owners: map<Id, Owner>) {
    // A hash that does not exist reads as an empty one.
    function Entries(k: Key): Table {
      if k in hashes then hashes[k] else map[]
    }

    // The deadline of a hash, if it has one.
    function Lease(k: Key): Option<Time> {
      if k in deadlines then Some(deadlines[k]) else None
    }

    // Redis keeps no empty hash; the deadline stays with the hash.
    function Put(k: Key, h: Table): Store {
      if h == map[] then this.(hashes := hashes - {k}, deadlines := deadlines - {k})
      else this.(hashes := hashes[k := h])
    }

    function Expire(k: Key, until: Time): Store {
      this.(deadlines := deadlines[k := until])
    }

    function Users(task: Id): Table { Entries(TaskUsers(task)) }

    function Tasks(user: Id): Table { Entries(UserTasks(user)) }

    function Active(project: Id): Table { Entries(ActiveUsers(Decoded(project))) }

    function OwnerOf(task: Id, now: Time): Option<Id> {
      if task in owners && now <= owners[task].until then Some(owners[task].project) else None
    }

    function SetOwner(task: Id, project: Id, until: Time): Store {
      this.(owners := owners[task := Owner(project, until)])
    }

    // How long an entry of the hash with this expiration is there.
    function Until(k: Key, expiration: Time): Time {
      if Lease(k).Some? && Lease(k).value < expiration then Lease(k).value else expiration
    }
  }

  datatype Outcome = Outcome(store: Store, granted: bool)

  // The keys whose deadline has passed.
  function Lapsed(st: Store, now: Time): set<Key> {
    set k | k in st.deadlines && now > st.deadlines[k]
  }

  // What Redis still shows when the clock reads `now`.
  function Drop(st: Store, now: Time): Store {
    st.(hashes := st.hashes - Lapsed(st, now), deadlines := st.deadlines - Lapsed(st, now))
  }

  function Purge(st: Store, now: Time, k: Key): Store {
    st.Put(k, Sweep(st.Entries(k), now))
  }

  // Acquiring a lock on one hash: a new entry gives the hash a new deadline.
  function AcquireIn(st: Store, k: Key, now: Time, duration: Time, client: Id, limit: Limit, gotMutex: bool): Outcome {
    var r := Acquire(st.Entries(k), now, duration, client, limit, gotMutex);
    var st1 := st.Put(k, r.table);
    Outcome(if Inserts(st.Entries(k), now, client, limit, gotMutex) then st1.Expire(k, now + duration) else st1, r.granted)
  }

  // Both hashes are written, or none gains an entry.
  function AcquireLocks(st: Store, now: Time, timeout: Time, task: Id, user: Id, limit: Limit, gotMutex: bool): Outcome {
    var users := AcquireIn(st, TaskUsers(task), now, timeout, user, limit, gotMutex);
    if users.granted then
      Outcome(AcquireIn(users.store, UserTasks(user), now, timeout, task, Infinite, gotMutex).store, true)
    else
      users
  }

  function AddActive(st: Store, now: Time, ttl: Time, project: Id, user: Id): Store {
    var key := ActiveUsers(Decoded(project));
    st.Put(key, st.Entries(key)[user := now + ttl]).Expire(key, now + ttl)
  }

  // What follows a granted lock: the task's project is recorded and the user is active in it.
  function Register(st: Store, now: Time, timeout: Time, task: Id, project: Id, user: Id): Store {
    AddActive(st.SetOwner(task, project, now + 2.0 * timeout), now, timeout, project, user)
  }

  function OwnersOf(st: Store, tasks: set<Id>, now: Time): set<Option<Id>> {
    set t | t in tasks :: st.OwnerOf(t, now)
  }

  // No other task of the user is known to belong to the task's project.
  predicate LastOfProject(st: Store, now: Time, task: Id, user: Id) {
    st.OwnerOf(task, now) !in OwnersOf(st, st.Tasks(user).Keys - {task}, now)
  }

  // The project of a task as Redis returns it, before any decoding.
  function Raw(project: Option<Id>): ProjectName {
    match project
    case Some(id) => Undecoded(id)
    case None => Missing
  }

  function ReleaseIn(st: Store, k: Key, client: Id, now: Time): Store {
    st.Put(k, Release(st.Entries(k), client, now))
  }

  // Both entries get the grace expiration. Unless another task of the project remains the user
  // is to stay active for the grace period only, but that goes to the key formatted from the
  // undecoded project, which nothing reads: the project's own active users are left alone. No
  // deadline is touched.
  function ReleaseLock(st: Store, now: Time, task: Id, user: Id): Store {
    var st1 := ReleaseIn(st, TaskUsers(task), user, now);
    var st2 := ReleaseIn(st1, UserTasks(user), task, now);
    if LastOfProject(st, now, task, user) then ReleaseIn(st2, ActiveUsers(Raw(st.OwnerOf(task, now))), user, now)
    else st2
  }

  lemma PurgedEntries(st: Store, now: Time, k: Key)
    ensures Purge(st, now, k).Entries(k) == Sweep(st.Entries(k), now)
  {
  }

  // The last write to a hash is the one that counts, and so is the last deadline.
  lemma PutTwice(st: Store, k: Key, h1: Table, h2: Table, until: Time)
    ensures st.Put(k, h1).Put(k, h2).Expire(k, until) == st.Put(k, h2).Expire(k, until)
  {
  }

  // An acquire that adds an entry amounts to the sweep and then the entry with its deadline.
  lemma AcquireInInserts(st: Store, k: Key, now: Time, duration: Time, client: Id, limit: Limit, gotMutex: bool)
    requires Inserts(st.Entries(k), now, client, limit, gotMutex)
    ensures AcquireIn(st, k, now, duration, client, limit, gotMutex)
         == Outcome(Purge(st, now, k).Put(k, Sweep(st.Entries(k), now)[client := now + duration]).Expire(k, now + duration), true)
  {
    var live := Sweep(st.Entries(k), now);
    PutTwice(st, k, live, live[client := now + duration], now + duration);
  }

  // Any other acquire amounts to the sweep.
  lemma AcquireInSweeps(st: Store, k: Key, now: Time, duration: Time, client: Id, limit: Limit, gotMutex: bool)
    requires !Inserts(st.Entries(k), now, client, limit, gotMutex)
    ensures AcquireIn(st, k, now, duration, client, limit, gotMutex)
         == Outcome(Purge(st, now, k), client in Sweep(st.Entries(k), now))
  {
  }

  lemma PutCommutes(st: Store, k1: Key, h1: Table, k2: Key, h2: Table)
    requires k1 != k2 && h1 != map[] && h2 != map[]
    ensures st.Put(k1, h1).Put(k2, h2) == st.Put(k2, h2).Put(k1, h1)
    ensures st.Put(k1, h1).Entries(k2) == st.Entries(k2)
  {
  }

  /** ---- What the operations do to each hash ---- */

  // The hashes under the other keys are as they were, and so are their deadlines.
  ghost predicate SameBut(st: Store, st1: Store, keys: set<Key>) {
    && (forall k | k !in keys :: st1.Entries(k) == st.Entries(k))
    && (forall k | k !in keys :: st1.Lease(k) == st.Lease(k))
  }

  // The deadline of a hash after an acquire.
  function LeaseAfter(h: Table, lease: Option<Time>, now: Time, duration: Time, client: Id, limit: Limit, gotMutex: bool)
    : Option<Time>
  {
    if Inserts(h, now, client, limit, gotMutex) then Some(now + duration)
    else if Sweep(h, now) == map[] then None
    else lease
  }

  predicate AcquiredIn(st: Store, st1: Store, k: Key, now: Time, duration: Time, client: Id, limit: Limit, gotMutex: bool) {
    && st1.Entries(k) == Acquire(st.Entries(k), now, duration, client, limit, gotMutex).table
    && st1.Lease(k) == LeaseAfter(st.Entries(k), st.Lease(k), now, duration, client, limit, gotMutex)
  }

  // Five seconds are left of both entries. The user gets five seconds of activity under the undecoded
  // project, which are all that is written there, unless another task of the user's hash is known to
  // belong to the project of this one, or both projects are unknown.
  lemma ReleaseLockMeans(st: Store, now: Time, task: Id, user: Id)
    ensures var st1 := ReleaseLock(st, now, task, user);
            var owner := st.OwnerOf(task, now);
            var key := ActiveUsers(if owner.Some? then Undecoded(owner.value) else Missing);
            && st1.Users(task) == st.Users(task)[user := now + 5.0]
            && st1.Tasks(user) == st.Tasks(user)[task := now + 5.0]
            && st1.Entries(key) == (if exists t :: t in st.Tasks(user) && t != task && st.OwnerOf(t, now) == owner
                                    then st.Entries(key) else st.Entries(key)[user := now + 5.0])
            && SameBut(st, st1, {TaskUsers(task), UserTasks(user), key})
            && (forall k :: st1.Lease(k) == st.Lease(k)) && st1.owners == st.owners
  {
    var owner := st.OwnerOf(task, now);
    var key := ActiveUsers(Raw(owner));
    ReleaseLockEffect(st, now, task, user);
    ReleasesActivity(st, now, task, user);
    assert LastOfProject(st, now, task, user) <==>
           !exists t :: t in st.Tasks(user) && t != task && st.OwnerOf(t, now) == owner;
  }

  lemma ReleasesActivity(st: Store, now: Time, task: Id, user: Id)
    ensures var key := ActiveUsers(Raw(st.OwnerOf(task, now)));
            ReleaseLock(st, now, task, user).Entries(key) ==
              if LastOfProject(st, now, task, user) then Release(st.Entries(key), user, now) else st.Entries(key)
  {
    var key := ActiveUsers(Raw(st.OwnerOf(task, now)));
    ReleaseInEffect(st, TaskUsers(task), user, now);
    var st1 := ReleaseIn(st, TaskUsers(task), user, now);
    ReleaseInEffect(st1, UserTasks(user), task, now);
    ReleaseInEffect(ReleaseIn(st1, UserTasks(user), task, now), key, user, now);
  }

  // One hash of st1 is that of st swept, and with its last entry goes its deadline.
  ghost predicate Purges(st: Store, st1: Store, now: Time, key: Key) {
    && SameBut(st, st1, {key}) && st1.owners == st.owners
    && st1.Entries(key) == Sweep(st.Entries(key), now)
    && st1.Lease(key) == if Sweep(st.Entries(key), now) == map[] then None else st.Lease(key)
  }

  lemma PurgeEffect(st: Store, now: Time, key: Key)
    ensures Purges(st, Purge(st, now, key), now, key)
  {
  }

  lemma WriteEffect(st: Store, k: Key, h: Table, until: Time)
    requires h != map[]
    ensures var st1 := st.Put(k, h).Expire(k, until);
            SameBut(st, st1, {k}) && st1.owners == st.owners && st1.Entries(k) == h && st1.Lease(k) == Some(until)
  {
  }

  lemma AcquireInEffect(st: Store, k: Key, now: Time, duration: Time, client: Id, limit: Limit, gotMutex: bool)
    ensures var r := AcquireIn(st, k, now, duration, client, limit, gotMutex);
            && SameBut(st, r.store, {k}) && r.store.owners == st.owners
            && AcquiredIn(st, r.store, k, now, duration, client, limit, gotMutex)
            && r.granted == Acquire(st.Entries(k), now, duration, client, limit, gotMutex).granted
  {
    if Inserts(st.Entries(k), now, client, limit, gotMutex) {
      var h := Sweep(st.Entries(k), now)[client := now + duration];
      assert client in h;
      WriteEffect(st, k, h, now + duration);
    } else {
      PurgeEffect(st, now, k);
    }
  }

  // One call of AcquireLocks leads from st to st1.
  ghost predicate Acquires(st: Store, st1: Store, now: Time, timeout: Time, task: Id, user: Id, limit: Limit, gotMutex: bool) {
    && AcquiredIn(st, st1, TaskUsers(task), now, timeout, user, limit, gotMutex)
    && if Acquire(st.Users(task), now, timeout, user, limit, gotMutex).granted then
         && SameBut(st, st1, {TaskUsers(task), UserTasks(user)})
         && AcquiredIn(st, st1, UserTasks(user), now, timeout, task, Infinite, gotMutex)
       else
         SameBut(st, st1, {TaskUsers(task)})
  }

  lemma AcquireLocksEffect(st: Store, now: Time, timeout: Time, task: Id, user: Id, limit: Limit, gotMutex: bool)
    ensures var r := AcquireLocks(st, now, timeout, task, user, limit, gotMutex);
            && Acquires(st, r.store, now, timeout, task, user, limit, gotMutex)
            && r.granted == Acquire(st.Users(task), now, timeout, user, limit, gotMutex).granted
            && r.store.owners == st.owners
  {
    AcquireInEffect(st, TaskUsers(task), now, timeout, user, limit, gotMutex);
    var st1 := AcquireIn(st, TaskUsers(task), now, timeout, user, limit, gotMutex).store;
    AcquireInEffect(st1, UserTasks(user), now, timeout, task, Infinite, gotMutex);
  }

  lemma RegisterEffect(st: Store, now: Time, timeout: Time, task: Id, project: Id, user: Id)
    ensures var st1, key := Register(st, now, timeout, task, project, user), ActiveUsers(Decoded(project));
            && SameBut(st, st1, {key})
            && st1.Active(project) == st.Active(project)[user := now + timeout]
            && st1.Lease(key) == Some(now + timeout)
            && st1.owners == st.owners[task := Owner(project, now + 2.0 * timeout)]
  {
  }

  // One call of ReleaseLock leads from st to st1; `name` is the undecoded project.
  ghost predicate Releases(st: Store, st1: Store, now: Time, task: Id, user: Id, name: ProjectName) {
    && !name.Decoded?
    && SameBut(st, st1, {TaskUsers(task), UserTasks(user), ActiveUsers(name)}) && st1.owners == st.owners
    && st1.Users(task) == Release(st.Users(task), user, now)
    && st1.Tasks(user) == Release(st.Tasks(user), task, now)
    && st1.Lease(TaskUsers(task)) == st.Lease(TaskUsers(task))
    && st1.Lease(UserTasks(user)) == st.Lease(UserTasks(user))
    && st1.Lease(ActiveUsers(name)) == st.Lease(ActiveUsers(name))
  }

  lemma ReleaseInEffect(st: Store, k: Key, client: Id, now: Time)
    ensures var st1 := ReleaseIn(st, k, client, now);
            && SameBut(st, st1, {k}) && st1.owners == st.owners
            && st1.Entries(k) == Release(st.Entries(k), client, now) && st1.Lease(k) == st.Lease(k)
  {
    assert client in Release(st.Entries(k), client, now);
  }

  lemma ReleaseLockEffect(st: Store, now: Time, task: Id, user: Id)
    ensures Releases(st, ReleaseLock(st, now, task, user), now, task, user, Raw(st.OwnerOf(task, now)))
  {
    ReleaseInEffect(st, TaskUsers(task), user, now);
    var st1 := ReleaseIn(st, TaskUsers(task), user, now);
    ReleaseInEffect(st1, UserTasks(user), task, now);
    var st2 := ReleaseIn(st1, UserTasks(user), task, now);
    ReleaseInEffect(st2, ActiveUsers(Raw(st.OwnerOf(task, now))), user, now);
  }

  predicate IsLapsed(st: Store, now: Time, k: Key) {
    st.Lease(k).Some? && now > st.Lease(k).value
  }

  // st1 is what Redis shows of st at `now`.
  ghost predicate Drops(st: Store, st1: Store, now: Time) {
    && st1.owners == st.owners
    && (forall k :: st1.Entries(k) == if IsLapsed(st, now, k) then map[] else st.Entries(k))
    && (forall k :: st1.Lease(k) == if IsLapsed(st, now, k) then None else st.Lease(k))
  }

  lemma DropEffect(st: Store, now: Time)
    ensures Drops(st, Drop(st, now), now)
  {
  }

  // No hash is past its deadline.
  ghost predicate Fresh(st: Store, now: Time) {
    forall k :: !IsLapsed(st, now, k)
  }
}
