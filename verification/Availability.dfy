/**
 The worker's task list: a task is marked available exactly when asking for it now would
 get its lock.
 */
module Availability {
  import opened Options
  import opened LockTable
  import opened LockStore
  import opened LockSystem
  import Listing
  import Sets

  datatype TaskView = TaskView(id: Id, calibration: bool, answers: int, runs: int, available: bool)

  function RemainingOf(t: TaskView): Limit {
    if t.calibration then Infinite else Finite(t.answers - t.runs)
  }

  // The users with a listed lock on the task.
  function Lockers(cfg: Config, st: Store, now: Time, project: Id, task: Id): set<Id> {
    set l | l in Listing.Listed(cfg, st, now, project) && l.1 == task :: l.0
  }

  predicate Available(t: TaskView, lockers: set<Id>, user: Id, eligible: set<Id>) {
    t.id in eligible && (user in lockers || RemainingOf(t).Infinite? || |lockers| < RemainingOf(t).n)
  }

  // A row of the result is its input row, marked as available if the user is eligible and holds the task,
  // or fewer users hold it than runs are missing; a gold task always misses some.
  ghost predicate MarkedFrom(t: TaskView, locked: map<Id, seq<Id>>, user: Id, eligible: set<Id>, r: TaskView) {
    var holders := if t.id in locked then locked[t.id] else [];
    && r == t.(available := r.available)
    && var free := t.calibration || |holders| < t.answers - t.runs;
       r.available <==> t.available || (t.id in eligible && (user in holders || free))
  }

  // `kept` holds the positions of the rows shown, in the given order: all but the completed ones.
  ghost predicate MarksOpenTasks(ranked: seq<TaskView>, locked: map<Id, seq<Id>>, user: Id, eligible: set<Id>,
                                 result: seq<TaskView>, kept: seq<nat>) {
    && |kept| == |result|
    && (forall k | 0 <= k < |kept| :: kept[k] < |ranked| && MarkedFrom(ranked[kept[k]], locked, user, eligible, result[k]))
    && (forall j, k | 0 <= j < k < |kept| :: kept[j] < kept[k])
    && (forall i: nat | i < |ranked| :: i in kept <==> ranked[i].calibration || ranked[i].answers != ranked[i].runs)
  }

  lemma OneMoreRow(ranked: seq<TaskView>, t: TaskView, locked: map<Id, seq<Id>>, user: Id, eligible: set<Id>,
                   result: seq<TaskView>, kept: seq<nat>)
    requires MarksOpenTasks(ranked, locked, user, eligible, result, kept)
    ensures !t.calibration && t.answers == t.runs ==> MarksOpenTasks(ranked + [t], locked, user, eligible, result, kept)
    ensures forall r | (t.calibration || t.answers != t.runs) && MarkedFrom(t, locked, user, eligible, r) ::
              MarksOpenTasks(ranked + [t], locked, user, eligible, result + [r], kept + [|ranked|])
  {
    var all, more := ranked + [t], kept + [|ranked|];
    assert forall k | 0 <= k < |kept| :: kept[k] < |ranked| && all[kept[k]] == ranked[kept[k]];
    forall i: nat | i < |all| ensures i in more <==> i == |ranked| || i in kept {}
    forall r | (t.calibration || t.answers != t.runs) && MarkedFrom(t, locked, user, eligible, r)
      ensures MarksOpenTasks(all, locked, user, eligible, result + [r], more)
    {
      assert forall k | 0 <= k < |kept| :: (result + [r])[k] == result[k] && more[k] == kept[k];
    }
  }

  // The loop of the task list; `locked` maps a task to the list of users holding it.
  method SelectAvailableTasks(ranked: seq<TaskView>, locked: map<Id, seq<Id>>, user: Id, eligible: set<Id>)
    returns (result: seq<TaskView>)
    ensures exists kept :: MarksOpenTasks(ranked, locked, user, eligible, result, kept)
  {
    result := [];
    ghost var kept: seq<nat> := [];
    for i := 0 to |ranked|
      invariant MarksOpenTasks(ranked[..i], locked, user, eligible, result, kept)
    {
      OneMoreRow(ranked[..i], ranked[i], locked, user, eligible, result, kept);
      assert ranked[..i + 1] == ranked[..i] + [ranked[i]];
      var t := ranked[i];
      var remaining := RemainingOf(t);
      if remaining == Finite(0) {
        continue;
      }
      var lockedUsers := if t.id in locked then locked[t.id] else [];
      if t.id in eligible && (user in lockedUsers || remaining.Infinite? || |lockedUsers| < remaining.n) {
        t := t.(available := true);
      }
      assert MarkedFrom(ranked[i], locked, user, eligible, t);
      result := result + [t];
      kept := kept + [i];
    }
    assert ranked[..|ranked|] == ranked;
  }

  predicate NoDuplicates(s: seq<Id>) {
    forall i, j | 0 <= i < j < |s| :: s[i] != s[j]
  }

  function Elements(s: seq<Id>): set<Id> {
    set x | x in s
  }

  lemma {:induction false} LengthIsSize(s: seq<Id>)
    requires NoDuplicates(s)
    ensures |Elements(s)| == |s|
  {
    if s != [] {
      LengthIsSize(s[1..]);
      assert Elements(s) == {s[0]} + Elements(s[1..]);
    }
  }

  function LiveUsers(h: Table, now: Time): set<Id> {
    set u | u in h && h[u] > now
  }

  // An entry that expires exactly now is not listed any more but not swept yet: what is shown and
  // what could be locked agree unless such entries decide.
  predicate TiesDoNotMatter(h: Table, now: Time, user: Id, n: int) {
    var kept, live := Sweep(h, now), LiveUsers(h, now);
    user in live || if user in kept then |live| < n else !(|live| < n <= |kept|)
  }

  // The task is shown as available exactly when acquiring its lock at this instant would succeed.
  ghost predicate Agrees(cfg: Config, st: Store, now: Time, timeout: Time, project: Id, t: TaskView, user: Id, eligible: set<Id>) {
    Available(t, Lockers(cfg, st, now, project, t.id), user, eligible) <==>
    (t.id in eligible && Acquire(st.Users(t.id), now, timeout, user, RemainingOf(t), true).granted)
  }

  lemma AgreesIff(cfg: Config, st: Store, now: Time, timeout: Time, project: Id, t: TaskView, user: Id, eligible: set<Id>)
    requires Listing.Exact(cfg, st, now, project)
    requires t.id in cfg.tasks && cfg.tasks[t.id].project == project
    ensures Agrees(cfg, st, now, timeout, project, t, user, eligible) <==>
            (t.id in eligible && RemainingOf(t).Finite? ==> TiesDoNotMatter(st.Users(t.id), now, user, RemainingOf(t).n))
  {
    LockersAreLive(cfg, st, now, project, t.id);
    LiveIsKept(st.Users(t.id), now);
  }

  lemma LiveIsKept(h: Table, now: Time)
    ensures LiveUsers(h, now) <= Sweep(h, now).Keys && |LiveUsers(h, now)| <= |Sweep(h, now)|
  {
    forall u | u in LiveUsers(h, now) ensures u in Sweep(h, now) {}
    Sets.SubsetSize(LiveUsers(h, now), Sweep(h, now).Keys);
    assert |Sweep(h, now).Keys| == |Sweep(h, now)|;
  }

  lemma NoTieDoesNotMatter(h: Table, now: Time, user: Id, n: int)
    requires forall u | u in h :: h[u] != now
    ensures TiesDoNotMatter(h, now, user, n)
  {
    forall u ensures u in Sweep(h, now).Keys <==> u in LiveUsers(h, now) {}
    assert Sweep(h, now).Keys == LiveUsers(h, now);
    assert |Sweep(h, now).Keys| == |Sweep(h, now)|;
  }

  // In particular the two agree when no entry expires exactly now.
  lemma AvailableIffLockable(cfg: Config, st: Store, now: Time, timeout: Time, project: Id, t: TaskView, user: Id,
                             eligible: set<Id>)
    requires Listing.Exact(cfg, st, now, project)
    requires t.id in cfg.tasks && cfg.tasks[t.id].project == project
    requires forall u | u in st.Users(t.id) :: st.Users(t.id)[u] != now
    ensures Agrees(cfg, st, now, timeout, project, t, user, eligible)
  {
    AgreesIff(cfg, st, now, timeout, project, t, user, eligible);
    if RemainingOf(t).Finite? { NoTieDoesNotMatter(st.Users(t.id), now, user, RemainingOf(t).n); }
  }

  // The lists handed to the loop hold the listed users of each task of the project, each once.
  ghost predicate HoldsListed(cfg: Config, st: Store, now: Time, project: Id, locked: map<Id, seq<Id>>) {
    forall t | t in cfg.tasks && cfg.tasks[t].project == project ::
      var holders := if t in locked then locked[t] else [];
      NoDuplicates(holders) && Elements(holders) == Lockers(cfg, st, now, project, t)
  }

  // So where the listing is exact and no entry of the task expires exactly now, a row that came in
  // unmarked is marked exactly when the user is eligible and would get the task's lock at this instant.
  lemma MarkedIffObtainable(cfg: Config, st: Store, now: Time, project: Id, ranked: seq<TaskView>, locked: map<Id, seq<Id>>,
                            user: Id, eligible: set<Id>, result: seq<TaskView>, kept: seq<nat>, k: nat)
    requires MarksOpenTasks(ranked, locked, user, eligible, result, kept) && k < |result|
    requires var t := ranked[kept[k]];
             && t.id in cfg.tasks && cfg.tasks[t.id].project == project && !t.available
             && forall u | u in st.Users(t.id) :: st.Users(t.id)[u] != now
    requires Listing.Exact(cfg, st, now, project) && HoldsListed(cfg, st, now, project, locked)
    ensures var t := ranked[kept[k]];
            result[k].available <==>
              t.id in eligible &&
              Obtainable(st.Users(t.id), now, user, Candidate(t.id, t.runs, t.answers, t.calibration, true))
  {
    var t := ranked[kept[k]];
    var holders := if t.id in locked then locked[t.id] else [];
    LengthIsSize(holders);
    LockersAreLive(cfg, st, now, project, t.id);
    var live := set u | u in st.Users(t.id) && st.Users(t.id)[u] >= now;
    forall u ensures u in LiveUsers(st.Users(t.id), now) <==> u in live {
      assert u in st.Users(t.id) ==> st.Users(t.id)[u] != now;
    }
    assert LiveUsers(st.Users(t.id), now) == live;
    assert user in holders <==> user in Elements(holders);
  }

  // In every state reached by a covered run the list agrees exactly when ties do not matter.
  lemma AgreesIffOverRuns(cfg: Config, s: System, steps: seq<Step>, timeout: Time, t: TaskView, user: Id, eligible: set<Id>)
    requires Initial(s) && Possible(cfg, s, steps) && Listing.AllCovered(cfg, s, steps)
    requires t.id in cfg.tasks
    ensures var end := After(cfg, s, steps);
            Agrees(cfg, end.store, end.clock, timeout, cfg.tasks[t.id].project, t, user, eligible) <==>
            (t.id in eligible && RemainingOf(t).Finite? ==>
               TiesDoNotMatter(end.store.Users(t.id), end.clock, user, RemainingOf(t).n))
  {
    var end, project := After(cfg, s, steps), cfg.tasks[t.id].project;
    Listing.ListingIsExactOverRuns(cfg, s, steps, project);
    AgreesIff(cfg, end.store, end.clock, timeout, project, t, user, eligible);
  }

  lemma LockersAreLive(cfg: Config, st: Store, now: Time, project: Id, task: Id)
    requires Listing.Exact(cfg, st, now, project)
    requires task in cfg.tasks && cfg.tasks[task].project == project
    ensures Lockers(cfg, st, now, project, task) == LiveUsers(st.Users(task), now)
  {
    forall u ensures u in Lockers(cfg, st, now, project, task) <==> u in LiveUsers(st.Users(task), now) {
      if u in LiveUsers(st.Users(task), now) {
        var l := (u, task, st.Users(task)[u]);
        assert Listing.IsLocked(cfg, st, now, project, u, task, l.2);
        assert l in Listing.Listed(cfg, st, now, project);
      }
      if u in Lockers(cfg, st, now, project, task) {
        var l :| l in Listing.Listed(cfg, st, now, project) && l.1 == task && l.0 == u;
        assert l == (u, task, l.2);
        assert Listing.IsLocked(cfg, st, now, project, u, task, l.2);
      }
    }
  }

  // An input on which ties matter: the only entry of the hash expires now.
  lemma TieMatters(now: Time, holder: Id, user: Id)
    requires holder != user
    ensures !TiesDoNotMatter(map[holder := now], now, user, 1)
  {
    var h: Table := map[holder := now];
    assert LiveUsers(h, now) == {};
    assert Sweep(h, now) == h;
  }
}
