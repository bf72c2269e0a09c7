/** Submitting an answer and cancelling a task: the protocol's steps as the API takes them. */
module TaskRunApi {
  import opened LockTable
  import opened LockStore
  import opened LockSystem
  import opened RedisLock
  import opened Sched

  datatype Refusal = NotRequested | InvalidTask | InvalidProject | EnoughSubmissions | AlreadyAnswered

  datatype Response = Created | Forbidden(reason: Refusal)

  // Whether a submission is refused, and why: the first reason that applies, in this order.
  predicate IsRefusal(reason: Refusal, cfg: Config, users: Table, answered: Runs, user: Id, task: Id, project: Id,
                      stamped: bool, now: Time) {
    if user !in users || users[user] <= now then reason == NotRequested
    else if task !in cfg.tasks then reason == InvalidTask
    else if cfg.tasks[task].project != project then reason == InvalidProject
    else if !cfg.tasks[task].gold && |answered| >= cfg.tasks[task].answers then reason == EnoughSubmissions
    else if !stamped then reason == NotRequested
    else user in answered && reason == AlreadyAnswered
  }

  class TaskRunAPI {
    const sched: Scheduler
    var runs: map<Id, Runs>

    ghost predicate Valid()
      reads this, sched, sched.redis
    {
      sched.Valid()
    }

    function Users(task: Id): Table
      reads this, sched, sched.redis
    {
      sched.redis.Snapshot().Users(task)
    }

    function Answered(task: Id): Runs
      reads this
    {
      if task in runs then runs[task] else map[]
    }

    // The protocol's state when the clock reads `now`.
    ghost function State(now: Time): System
      reads this, sched, sched.redis
    {
      System(now, sched.redis.Snapshot(), runs)
    }

    constructor (sched: Scheduler)
      requires sched.Valid()
      ensures Valid() && this.sched == sched && runs == map[]
    {
      this.sched := sched;
      runs := map[];
    }

    // The count is taken on the master database.
    method CheckTaskNotOverAnswered(task: Id) returns (ok: bool)
      requires Valid() && task in sched.cfg.tasks
      ensures ok == !OverAnswered(sched.cfg, State(0.0), task)
      ensures ok <==> sched.cfg.tasks[task].gold || |Answered(task)| < sched.cfg.tasks[task].answers
    {
      if sched.cfg.tasks[task].gold {
        return true;
      }
      var count := if task in runs then |runs[task]| else 0;
      ok := !(count >= sched.cfg.tasks[task].answers);
    }

    // `stamped` says whether the contributions guard saw the user request the task. The
    // checks come in the order of the API; saving the run releases the user's lock.
    method Post(user: Id, task: Id, project: Id, stamped: bool, now: Time) returns (response: Response)
      requires Valid()
      modifies this`runs, sched.redis`hashes
      ensures Valid()
      ensures response.Created?
         <==> && stamped && task in sched.cfg.tasks && sched.cfg.tasks[task].project == project
              && user in old(Users(task)) && old(Users(task))[user] > now
              && user !in old(Answered(task))
              && (sched.cfg.tasks[task].gold || |old(Answered(task))| < sched.cfg.tasks[task].answers)
      ensures response.Created?
         <==> && stamped && old(Enabled(sched.cfg, State(now), Submit(user, task)))
              && sched.cfg.tasks[task].project == project
      ensures response.Created? ==>
                && runs == old(runs)[task := old(Answered(task))[user := now]]
                && Users(task) == old(Users(task))[user := now + 5.0]
                && sched.redis.Snapshot().Tasks(user) == old(sched.redis.Snapshot().Tasks(user))[task := now + 5.0]
      ensures response.Created? ==> State(now) == Next(sched.cfg, old(State(now)), Submit(user, task))
      ensures response.Forbidden? ==>
                && State(now) == old(State(now))
                && IsRefusal(response.reason, sched.cfg, old(Users(task)), old(Answered(task)), user, task, project, stamped, now)
    {
      ReleaseLockMeans(sched.redis.Snapshot(), now, task, user);
      var held := sched.locks.HasLock(TaskUsers(task), user, now);
      if !held {
        return Forbidden(NotRequested);
      }
      if task !in sched.cfg.tasks {
        return Forbidden(InvalidTask);
      }
      if sched.cfg.tasks[task].project != project {
        return Forbidden(InvalidProject);
      }
      var ok := CheckTaskNotOverAnswered(task);
      if !ok {
        return Forbidden(EnoughSubmissions);
      }
      if !stamped {
        return Forbidden(NotRequested);
      }
      var before := if task in runs then runs[task] else map[];
      if user in before {
        return Forbidden(AlreadyAnswered);
      }
      runs := runs[task := before[user := now]];
      sched.ReleaseLock(task, user, now);
      response := Created;
    }

    // Only a lock that is held is released.
    method CancelTask(user: Id, task: Id, now: Time)
      requires Valid()
      modifies sched.redis`hashes
      ensures Valid() && runs == old(runs)
      ensures sched.redis.Snapshot() ==
                if user in old(Users(task)) && old(Users(task))[user] > now
                then ReleaseLock(old(sched.redis.Snapshot()), now, task, user) else old(sched.redis.Snapshot())
      ensures old(Enabled(sched.cfg, State(now), Cancel(user, task))) <==>
                task in sched.cfg.tasks && user in old(Users(task)) && old(Users(task))[user] > now
      ensures old(Enabled(sched.cfg, State(now), Cancel(user, task))) ==>
                State(now) == Next(sched.cfg, old(State(now)), Cancel(user, task))
    {
      var held := sched.locks.HasLock(TaskUsers(task), user, now);
      if held {
        sched.ReleaseLock(task, user, now);
      }
    }
  }
}
