/**
 The lock manager, carried out on a Redis server command by command, and proved against
 the functions of LockTable and LockStore.
 */
module RedisLock {
  import Sets
  import opened Options
  import opened LockTable
  import opened LockStore

  // The part of a Redis server that the lock protocol uses. Hashes without fields do not
  // exist; `deadlines` holds the time to live that EXPIRE put on a whole hash.
  class Redis {
    var hashes: map<Key, Table>
    var deadlines: map<Key, Time>
    var owners: map<Id, Owner>

    ghost predicate Valid()
      reads this
    {
      && (forall k | k in hashes :: hashes[k] != map[])
      && deadlines.Keys <= hashes.Keys
    }

    function Snapshot(): Store
      reads this
    {
      Store(hashes, deadlines, owners)
    }

    constructor ()
      ensures Valid() && Snapshot() == Store(map[], map[], map[])
    {
      hashes, deadlines, owners := map[], map[], map[];
    }

    // The fields of a hash come in no particular order.
    method HGetAll(k: Key) returns (h: Table, fields: seq<Id>)
      ensures h == Snapshot().Entries(k) && Sets.Lists(fields, h.Keys)
    {
      h := if k in hashes then hashes[k] else map[];
      fields := Sets.InSomeOrder(h.Keys);
    }

    method HLen(k: Key) returns (n: nat)
      ensures n == |Snapshot().Entries(k)|
    {
      n := if k in hashes then |hashes[k]| else 0;
    }

    method HSet(k: Key, field: Id, value: Time)
      requires Valid()
      modifies this`hashes
      ensures Valid()
      ensures Snapshot() == old(Snapshot().Put(k, Snapshot().Entries(k)[field := value]))
    {
      var fields := (if k in hashes then hashes[k] else map[])[field := value];
      assert field in fields;
      hashes := hashes[k := fields];
    }

    // The last field to go takes the hash and its time to live along.
    method HDel(k: Key, fields: seq<Id>)
      requires Valid()
      modifies this`hashes, this`deadlines
      ensures Valid()
      ensures Snapshot() == old(Snapshot().Put(k, Snapshot().Entries(k) - Fields(fields)))
    {
      if k in hashes {
        var rest := hashes[k] - Fields(fields);
        if rest == map[] {
          hashes, deadlines := hashes - {k}, deadlines - {k};
        } else {
          hashes := hashes[k := rest];
        }
      }
    }

    method Expire(k: Key, until: Time)
      requires Valid() && k in hashes
      modifies this`deadlines
      ensures Valid() && Snapshot() == old(Snapshot()).Expire(k, until)
    {
      deadlines := deadlines[k := until];
    }

    // As time passes Redis drops the hashes whose time to live is over, with all their fields.
    method DropLapsed(now: Time)
      requires Valid()
      modifies this`hashes, this`deadlines
      ensures Valid() && Snapshot() == Drop(old(Snapshot()), now)
    {
      var lapsed := set k | k in deadlines && now > deadlines[k];
      hashes, deadlines := hashes - lapsed, deadlines - lapsed;
    }

    method GetOwner(task: Id, now: Time) returns (project: Option<Id>)
      ensures project == Snapshot().OwnerOf(task, now)
    {
      project := if task in owners && now <= owners[task].until then Some(owners[task].project) else None;
    }

    method SetEx(task: Id, project: Id, until: Time)
      requires Valid()
      modifies this`owners
      ensures Valid() && Snapshot() == old(Snapshot()).SetOwner(task, project, until)
    {
      owners := owners[task := Owner(project, until)];
    }
  }

  function Fields(s: seq<Id>): set<Id> {
    set f | f in s
  }

  lemma DroppingExpired(h: Table, expired: seq<Id>, now: Time)
    requires forall c :: c in expired <==> c in h && now > h[c]
    ensures h - Fields(expired) == Sweep(h, now)
    ensures expired == [] ==> Sweep(h, now) == h
  {
    forall c ensures c in (h - Fields(expired)).Keys <==> c in Sweep(h, now) {
      assert c in Fields(expired) <==> c in expired;
    }
    if expired == [] {
      forall c | c in h ensures c in Sweep(h, now) {
        assert c !in expired;
      }
    }
  }

  // The clients whose entries have expired, in the order in which the hash lists them.
  method Expired(locks: Table, fields: seq<Id>, now: Time) returns (toDelete: seq<Id>)
    requires Sets.Lists(fields, locks.Keys)
    ensures forall c :: c in toDelete <==> c in locks && now > locks[c]
  {
    toDelete := [];
    for i := 0 to |fields|
      invariant forall c :: c in toDelete <==> c in fields[..i] && now > locks[c]
    {
      if now > locks[fields[i]] {
        toDelete := toDelete + [fields[i]];
      }
    }
  }

  class LockManager {
    const redis: Redis
    const duration: Time

    constructor (redis: Redis, duration: Time)
      ensures this.redis == redis && this.duration == duration
    {
      this.redis, this.duration := redis, duration;
    }

    method GetLocks(resource: Key) returns (locks: Table, clients: seq<Id>)
      ensures locks == redis.Snapshot().Entries(resource) && Sets.Lists(clients, locks.Keys)
    {
      locks, clients := redis.HGetAll(resource);
    }

    method ReleaseExpiredLocks(resource: Key, now: Time)
      requires redis.Valid()
      modifies redis`hashes, redis`deadlines
      ensures redis.Valid()
      ensures redis.Snapshot() == old(Purge(redis.Snapshot(), now, resource))
    {
      var locks, clients := GetLocks(resource);
      var toDelete := Expired(locks, clients, now);
      DroppingExpired(locks, toDelete, now);
      if toDelete != [] {
        redis.HDel(resource, toDelete);
      }
    }

    // `gotMutex` is the outcome of waiting for the update mutex.
    method AcquireLock(resource: Key, now: Time, client: Id, limit: Limit, gotMutex: bool) returns (granted: bool)
      requires redis.Valid()
      modifies redis`hashes, redis`deadlines
      ensures redis.Valid()
      ensures AcquireIn(old(redis.Snapshot()), resource, now, duration, client, limit, gotMutex)
           == Outcome(redis.Snapshot(), granted)
    {
      PurgedEntries(redis.Snapshot(), now, resource);
      if Inserts(redis.Snapshot().Entries(resource), now, client, limit, gotMutex) {
        AcquireInInserts(redis.Snapshot(), resource, now, duration, client, limit, gotMutex);
      } else {
        AcquireInSweeps(redis.Snapshot(), resource, now, duration, client, limit, gotMutex);
      }
      var expiration := now + duration;
      ReleaseExpiredLocks(resource, now);
      var locks, _ := GetLocks(resource);
      if client in locks {
        return true;
      }
      if limit.Infinite? {
        Insert(resource, client, expiration);
        return true;
      }
      granted := false;
      if gotMutex {
        var acquired := redis.HLen(resource);
        if acquired < limit.n {
          Insert(resource, client, expiration);
          granted := true;
        }
      }
    }

    // One pipeline writes the entry and the time to live of the whole hash.
    method Insert(resource: Key, client: Id, expiration: Time)
      requires redis.Valid()
      modifies redis`hashes, redis`deadlines
      ensures redis.Valid()
      ensures redis.Snapshot() == old(redis.Snapshot().Put(resource, redis.Snapshot().Entries(resource)[client := expiration])
                                      .Expire(resource, expiration))
    {
      redis.HSet(resource, client, expiration);
      assert client in redis.Snapshot().Entries(resource);
      redis.Expire(resource, expiration);
    }

    method HasLock(resource: Key, client: Id, now: Time) returns (held: bool)
      ensures held == LockTable.HasLock(redis.Snapshot().Entries(resource), client, now)
    {
      var locks, _ := redis.HGetAll(resource);
      if client !in locks {
        return false;
      }
      var expiration := locks[client];
      held := expiration > now;
    }

    // Written whether or not the client holds the lock.
    method ReleaseLock(resource: Key, client: Id, now: Time)
      requires redis.Valid()
      modifies redis`hashes
      ensures redis.Valid()
      ensures redis.Snapshot() == ReleaseIn(old(redis.Snapshot()), resource, client, now)
    {
      redis.HSet(resource, client, now + EXPIRE_LOCK_DELAY);
    }
  }
}
