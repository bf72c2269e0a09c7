/**
 The order in which the scheduler tries its candidates: Python's stable descending sort by
 score, with saved tasks scored by the time they have left.
 */
module Ranking {
  import opened Options
  import opened LockTable
  import opened LockStore
  import opened LockSystem

  datatype Ranked<T> = Ranked(item: T, score: real)

  // Places x, which comes earlier in query order, before every item not scored higher.
  function Insert<T>(x: Ranked<T>, ys: seq<Ranked<T>>): seq<Ranked<T>> {
    if ys == [] || ys[0].score <= x.score then [x] + ys
    else [ys[0]] + Insert(x, ys[1..])
  }

  function SortDescending<T>(xs: seq<Ranked<T>>): seq<Ranked<T>> {
    if xs == [] then [] else Insert(xs[0], SortDescending(xs[1..]))
  }

  ghost predicate Descending<T>(xs: seq<Ranked<T>>) {
    forall i, j | 0 <= i < j < |xs| :: xs[i].score >= xs[j].score
  }

  // The items of one score, in order.
  function Scored<T>(xs: seq<Ranked<T>>, score: real): seq<Ranked<T>> {
    if xs == [] then []
    else (if xs[0].score == score then [xs[0]] else []) + Scored(xs[1..], score)
  }

  ghost predicate AtMost<T>(xs: seq<Ranked<T>>, top: real) {
    forall i | 0 <= i < |xs| :: xs[i].score <= top
  }

  lemma Prepend<T>(x: Ranked<T>, ys: seq<Ranked<T>>)
    requires Descending(ys) && AtMost(ys, x.score)
    ensures Descending([x] + ys)
  {
  }

  lemma {:induction false} InsertKeepsBound<T>(x: Ranked<T>, ys: seq<Ranked<T>>, top: real)
    requires AtMost(ys, top) && x.score <= top
    ensures AtMost(Insert(x, ys), top)
  {
    if ys != [] { InsertKeepsBound(x, ys[1..], top); }
  }

  lemma {:induction false} InsertKeepsOrder<T>(x: Ranked<T>, ys: seq<Ranked<T>>)
    requires Descending(ys)
    ensures Descending(Insert(x, ys))
  {
    if ys == [] || ys[0].score <= x.score {
      Prepend(x, ys);
    } else {
      InsertKeepsOrder(x, ys[1..]);
      InsertKeepsBound(x, ys[1..], ys[0].score);
      Prepend(ys[0], Insert(x, ys[1..]));
    }
  }

  lemma {:induction false} InsertAddsOne<T>(x: Ranked<T>, ys: seq<Ranked<T>>)
    ensures multiset(Insert(x, ys)) == multiset{x} + multiset(ys)
  {
    if ys != [] && ys[0].score > x.score {
      InsertAddsOne(x, ys[1..]);
      assert ys == [ys[0]] + ys[1..];
    }
  }

  lemma {:induction false} InsertKeepsTies<T>(x: Ranked<T>, ys: seq<Ranked<T>>, score: real)
    requires Descending(ys)
    ensures Scored(Insert(x, ys), score) == Scored([x] + ys, score)
  {
    if ys != [] && ys[0].score > x.score {
      InsertKeepsTies(x, ys[1..], score);
      assert ([x] + ys)[1..] == ys && ([x] + ys[1..])[1..] == ys[1..];
      assert ([ys[0]] + Insert(x, ys[1..]))[1..] == Insert(x, ys[1..]);
    }
  }

  // The sort is a descending permutation that keeps items of equal score in query order.
  lemma {:induction false} SortIsStable<T>(xs: seq<Ranked<T>>)
    ensures Descending(SortDescending(xs))
    ensures multiset(SortDescending(xs)) == multiset(xs)
    ensures forall score :: Scored(SortDescending(xs), score) == Scored(xs, score)
  {
    if xs != [] {
      SortIsStable(xs[1..]);
      var tail := SortDescending(xs[1..]);
      InsertKeepsOrder(xs[0], tail);
      InsertAddsOne(xs[0], tail);
      assert xs == [xs[0]] + xs[1..];
      forall score ensures Scored(SortDescending(xs), score) == Scored(xs, score) {
        InsertKeepsTies(xs[0], tail, score);
        assert ([xs[0]] + tail)[1..] == tail;
      }
    }
  }

  // There is only one such order: any descending arrangement with the same ties is the sort.
  lemma {:induction false} SortIsUnique<T>(xs: seq<Ranked<T>>, ys: seq<Ranked<T>>)
    requires Descending(xs) && Descending(ys)
    requires forall score :: Scored(xs, score) == Scored(ys, score)
    ensures xs == ys
  {
    if xs == [] {
      if ys != [] { HeadIsScored(ys); }
    } else if ys == [] {
      HeadIsScored(xs);
    } else {
      SameHead(xs, ys);
      forall score ensures Scored(xs[1..], score) == Scored(ys[1..], score) {
        assert Scored(xs, score) == Scored(ys, score);
        var head := if xs[0].score == score then [xs[0]] else [];
        assert Scored(xs[1..], score) == Scored(xs, score)[|head|..];
        assert Scored(ys[1..], score) == Scored(ys, score)[|head|..];
      }
      SortIsUnique(xs[1..], ys[1..]);
    }
  }

  lemma {:induction false} ScoredPresent<T>(xs: seq<Ranked<T>>, score: real) returns (i: int)
    requires Scored(xs, score) != []
    ensures 0 <= i < |xs| && xs[i].score == score
  {
    if xs[0].score == score {
      i := 0;
    } else {
      i := ScoredPresent(xs[1..], score);
      i := i + 1;
    }
  }

  lemma HeadIsScored<T>(xs: seq<Ranked<T>>)
    requires xs != []
    ensures Scored(xs, xs[0].score) == [xs[0]] + Scored(xs[1..], xs[0].score)
  {
  }

  // A list whose items of some score are those of ys starts no lower than ys does.
  lemma HeadNotLower<T>(xs: seq<Ranked<T>>, ys: seq<Ranked<T>>)
    requires xs != [] && ys != [] && Descending(xs)
    requires Scored(xs, ys[0].score) == Scored(ys, ys[0].score)
    ensures xs[0].score >= ys[0].score
  {
    HeadIsScored(ys);
    var i := ScoredPresent(xs, ys[0].score);
  }

  lemma SameHead<T>(xs: seq<Ranked<T>>, ys: seq<Ranked<T>>)
    requires xs != [] && ys != [] && Descending(xs) && Descending(ys)
    requires forall score :: Scored(xs, score) == Scored(ys, score)
    ensures xs[0] == ys[0]
  {
    HeadNotLower(xs, ys);
    HeadNotLower(ys, xs);
    HeadIsScored(xs);
    HeadIsScored(ys);
    assert Scored(xs, xs[0].score)[0] == xs[0] && Scored(ys, xs[0].score)[0] == ys[0];
  }

  /** ---- Scores ---- */

  datatype Position = First | Last

  const MAXSIZE: int := 0x7FFF_FFFF_FFFF_FFFF

  // A row of the candidate query, whether the user meets its requirements, and how much
  // the user prefers it.
  datatype QueryRow = QueryRow(row: Candidate, meets: bool, preference: real)

  // `ttls` holds the seconds left of the user's saved tasks, when a position was asked for.
  datatype Ordering = Ordering(ttls: map<Id, int>, position: Position, preferences: bool)

  function Ttl(ord: Ordering, task: Id): int {
    if task in ord.ttls then ord.ttls[task] else -1
  }

  function SavedScore(position: Position, ttl: int): real {
    if ttl > 0 && position.Last? then -(ttl as real)
    else if ttl > 0 && position.First? then (MAXSIZE - ttl) as real
    else 0.0
  }

  // Saved tasks, when there are any, decide alone; else preferences, when they are in use.
  function Score(ord: Ordering, q: QueryRow): seq<Ranked<Candidate>> {
    if ord.ttls != map[] then [Ranked(q.row, SavedScore(ord.position, Ttl(ord, q.row.task)))]
    else if ord.preferences then (if q.meets then [Ranked(q.row, q.preference)] else [])
    else [Ranked(q.row, 0.0)]
  }

  function Scores(ord: Ordering, rows: seq<QueryRow>): seq<Ranked<Candidate>> {
    if rows == [] then [] else Score(ord, rows[0]) + Scores(ord, rows[1..])
  }

  // The score of a row that is ranked: a saved task by its time to live, where saved tasks are asked for,
  // else the preference, where preferences are in use.
  ghost predicate IsScored(ord: Ordering, q: QueryRow, r: Ranked<Candidate>) {
    && r.item == q.row
    && (ord.ttls != map[] && q.row.task in ord.ttls && ord.ttls[q.row.task] > 0 ==>
          r.score == if ord.position.Last? then -(ord.ttls[q.row.task] as real)
                     else (0x7FFF_FFFF_FFFF_FFFF - ord.ttls[q.row.task]) as real)
    && (ord.ttls != map[] && !(q.row.task in ord.ttls && ord.ttls[q.row.task] > 0) ==> r.score == 0.0)
    && (ord.ttls == map[] ==> r.score == if ord.preferences then q.preference else 0.0)
  }

  // `picked` holds the positions of the ranked rows, in query order: all of them, but where preferences
  // alone decide those whose requirements the user meets.
  ghost predicate RanksRows(ord: Ordering, rows: seq<QueryRow>, ranked: seq<Ranked<Candidate>>, picked: seq<nat>) {
    && |picked| == |ranked|
    && (forall k | 0 <= k < |picked| :: picked[k] < |rows| && IsScored(ord, rows[picked[k]], ranked[k]))
    && (forall j, k | 0 <= j < k < |picked| :: picked[j] < picked[k])
    && (forall i: nat | i < |rows| :: i in picked <==> ord.ttls != map[] || !ord.preferences || rows[i].meets)
  }

  lemma RanksOneMore(ord: Ordering, rows: seq<QueryRow>, q: QueryRow, ranked: seq<Ranked<Candidate>>, picked: seq<nat>)
    requires RanksRows(ord, rows, ranked, picked)
    ensures var more := Score(ord, q);
            RanksRows(ord, rows + [q], ranked + more, picked + if more == [] then [] else [|rows|])
  {
    var more := Score(ord, q);
    if more != [] {
      var all := picked + [|rows|];
      forall i: nat | i < |rows + [q]| ensures i in all <==> ord.ttls != map[] || !ord.preferences || (rows + [q])[i].meets {
        if i < |rows| { assert i in all <==> i in picked; }
      }
    } else {
      assert picked + [] == picked && ranked + more == ranked;
      assert forall k | 0 <= k < |picked| :: picked[k] < |rows|;
    }
  }

  // One turn of the scoring loop.
  method ScoreRow(ord: Ordering, q: QueryRow) returns (scored: seq<Ranked<Candidate>>)
    ensures scored == Score(ord, q)
  {
    var score := 0.0;
    if ord.ttls != map[] {
      var ttl := if q.row.task in ord.ttls then ord.ttls[q.row.task] else -1;
      if ttl > 0 && ord.position.Last? {
        score := -(ttl as real);
      } else if ttl > 0 && ord.position.First? {
        score := (MAXSIZE - ttl) as real;
      }
    } else if ord.preferences {
      if !q.meets {
        return [];
      }
      score := q.preference;
    }
    scored := [Ranked(q.row, score)];
  }

  // The scoring loop of the scheduler.
  method ScoreRows(ord: Ordering, rows: seq<QueryRow>) returns (ranked: seq<Ranked<Candidate>>)
    ensures ranked == Scores(ord, rows)
    ensures exists picked :: RanksRows(ord, rows, ranked, picked)
  {
    ranked := [];
    ghost var picked: seq<nat> := [];
    for i := 0 to |rows|
      invariant ranked == Scores(ord, rows[..i])
      invariant RanksRows(ord, rows[..i], ranked, picked)
    {
      NextRow(ord, rows, i, ranked, picked);
      var scored := ScoreRow(ord, rows[i]);
      picked := picked + if scored == [] then [] else [i];
      ranked := ranked + scored;
    }
    assert rows[..|rows|] == rows;
  }

  lemma NextRow(ord: Ordering, rows: seq<QueryRow>, i: nat, ranked: seq<Ranked<Candidate>>, picked: seq<nat>)
    requires i < |rows| && ranked == Scores(ord, rows[..i]) && RanksRows(ord, rows[..i], ranked, picked)
    ensures var more := Score(ord, rows[i]);
            && ranked + more == Scores(ord, rows[..i + 1])
            && RanksRows(ord, rows[..i + 1], ranked + more, picked + if more == [] then [] else [i])
  {
    RanksOneMore(ord, rows[..i], rows[i], ranked, picked);
    ScoresOfMore(ord, rows[..i], rows[i]);
    assert rows[..i + 1] == rows[..i] + [rows[i]];
  }

  lemma {:induction false} ScoresOfMore(ord: Ordering, rows: seq<QueryRow>, q: QueryRow)
    ensures Scores(ord, rows + [q]) == Scores(ord, rows) + Score(ord, q)
  {
    if rows != [] {
      ScoresOfMore(ord, rows[1..], q);
      assert (rows + [q])[1..] == rows[1..] + [q];
    }
  }

  // A saved task precedes (or follows) one that is not, and the one that expires sooner
  // precedes the other.
  predicate Before(position: Position, ttl1: int, ttl2: int) {
    if ttl1 > 0 && ttl2 > 0 then ttl1 <= ttl2
    else if position.First? then ttl2 <= 0
    else ttl1 <= 0
  }

  lemma {:induction false} ScoresAreScored(ord: Ordering, rows: seq<QueryRow>, r: Ranked<Candidate>)
    requires ord.ttls != map[] && r in Scores(ord, rows)
    ensures r.score == SavedScore(ord.position, Ttl(ord, r.item.task))
  {
    if r !in Score(ord, rows[0]) { ScoresAreScored(ord, rows[1..], r); }
  }

  // Among the scheduler's candidates the saved ones come first (or last), the soonest to
  // expire leading.
  lemma SavedTasksOrder(ord: Ordering, rows: seq<QueryRow>, i: int, j: int)
    requires ord.ttls != map[] && forall t | t in ord.ttls :: ord.ttls[t] < MAXSIZE
    requires 0 <= i < j < |SortDescending(Scores(ord, rows))|
    ensures var sorted := SortDescending(Scores(ord, rows));
            Before(ord.position, Ttl(ord, sorted[i].item.task), Ttl(ord, sorted[j].item.task))
  {
    var scores := Scores(ord, rows);
    SortIsStable(scores);
    var sorted := SortDescending(scores);
    assert sorted[i] in multiset(scores) && sorted[j] in multiset(scores);
    ScoresAreScored(ord, rows, sorted[i]);
    ScoresAreScored(ord, rows, sorted[j]);
  }

  lemma {:induction false} PreferencesAreScores(ord: Ordering, rows: seq<QueryRow>, r: Ranked<Candidate>) returns (i: int)
    requires ord.ttls == map[] && ord.preferences && r in Scores(ord, rows)
    ensures 0 <= i < |rows| && rows[i].meets && rows[i].row == r.item && rows[i].preference == r.score
  {
    if r in Score(ord, rows[0]) {
      i := 0;
    } else {
      i := PreferencesAreScores(ord, rows[1..], r);
      i := i + 1;
    }
  }

  // Without saved tasks the candidates are tried by preference, the highest first, and the user meets the
  // requirements of each.
  lemma PreferredFirst(ord: Ordering, rows: seq<QueryRow>, i: int, j: int) returns (a: int, b: int)
    requires ord.ttls == map[] && ord.preferences
    requires 0 <= i < j < |SortDescending(Scores(ord, rows))|
    ensures var sorted := SortDescending(Scores(ord, rows));
            && 0 <= a < |rows| && rows[a].meets && rows[a].row == sorted[i].item
            && 0 <= b < |rows| && rows[b].meets && rows[b].row == sorted[j].item
            && rows[a].preference >= rows[b].preference
  {
    var scores := Scores(ord, rows);
    SortIsStable(scores);
    var sorted := SortDescending(scores);
    assert sorted[i] in multiset(scores) && sorted[j] in multiset(scores);
    a := PreferencesAreScores(ord, rows, sorted[i]);
    b := PreferencesAreScores(ord, rows, sorted[j]);
  }

  /** ---- Which candidate gets the lock ---- */

  ghost predicate Distinct(rows: seq<Candidate>) {
    forall i, j | 0 <= i < j < |rows| :: rows[i].task != rows[j].task
  }

  // The candidate's lock could be acquired in the store the request started from.
  predicate Lockable(st: Store, now: Time, user: Id, row: Candidate) {
    Obtainable(st.Users(row.task), now, user, row)
  }

  ghost predicate IsFirstLockable(st: Store, now: Time, user: Id, rows: seq<Candidate>, i: int) {
    && 0 <= i < |rows|
    && Lockable(st, now, user, rows[i])
    && forall j | 0 <= j < i :: !Lockable(st, now, user, rows[j])
  }

  lemma FailedGrantOnlySweeps(st: Store, now: Time, timeout: Time, project: Id, user: Id, row: Candidate)
    ensures var first := Grant(st, now, timeout, project, user, row);
            && first.granted == Lockable(st, now, user, row)
            && (forall t | t != row.task :: first.store.Users(t) == st.Users(t))
            && (!first.granted ==> first.store.Users(row.task).Keys <= st.Users(row.task).Keys)
  {
    GrantEffect(st, now, timeout, project, user, row);
    GrantMeans(st, now, timeout, project, user, row);
  }

  // Once the first candidate has failed, the others are as lockable as they were.
  lemma RestIsAsLockable(st: Store, st1: Store, now: Time, user: Id, rows: seq<Candidate>)
    requires rows != [] && Distinct(rows) && !Lockable(st, now, user, rows[0])
    requires forall t | t != rows[0].task :: st1.Users(t) == st.Users(t)
    ensures (forall i | 0 <= i < |rows[1..]| :: !Lockable(st1, now, user, rows[1..][i])) <==>
            (forall i | 0 <= i < |rows| :: !Lockable(st, now, user, rows[i]))
    ensures forall i :: IsFirstLockable(st1, now, user, rows[1..], i) ==>
                        IsFirstLockable(st, now, user, rows, i + 1)
  {
    var rest := rows[1..];
    forall i | 0 <= i < |rest|
      ensures Lockable(st1, now, user, rest[i]) == Lockable(st, now, user, rows[i + 1])
    {
      assert rest[i].task != rows[0].task;
    }
    forall i | 0 < i < |rows|
      ensures Lockable(st, now, user, rows[i]) == Lockable(st1, now, user, rest[i - 1])
    {
    }
  }

  // The chosen task is the first lockable one in ranking order, none is chosen only when none is
  // lockable, and no other task's hash gains an entry.
  ghost predicate ChoosesFirst(st: Store, now: Time, user: Id, rows: seq<Candidate>, chosen: Chosen) {
    && (chosen.task.None? <==> forall i | 0 <= i < |rows| :: !Lockable(st, now, user, rows[i]))
    && (chosen.task.Some? ==>
          exists i :: IsFirstLockable(st, now, user, rows, i) && rows[i].task == chosen.task.value)
    && forall t | Some(t) != chosen.task :: chosen.store.Users(t).Keys <= st.Users(t).Keys
  }

  lemma ChoosesAfterFailure(st: Store, st1: Store, now: Time, user: Id, rows: seq<Candidate>, chosen: Chosen)
    requires rows != [] && Distinct(rows) && !Lockable(st, now, user, rows[0])
    requires forall t | t != rows[0].task :: st1.Users(t) == st.Users(t)
    requires st1.Users(rows[0].task).Keys <= st.Users(rows[0].task).Keys
    requires ChoosesFirst(st1, now, user, rows[1..], chosen)
    ensures ChoosesFirst(st, now, user, rows, chosen)
  {
    RestIsAsLockable(st, st1, now, user, rows);
    if chosen.task.Some? {
      var i :| IsFirstLockable(st1, now, user, rows[1..], i) && rows[1..][i].task == chosen.task.value;
      assert IsFirstLockable(st, now, user, rows, i + 1);
    }
    forall t | Some(t) != chosen.task ensures chosen.store.Users(t).Keys <= st.Users(t).Keys {
      assert chosen.store.Users(t).Keys <= st1.Users(t).Keys;
    }
  }

  lemma {:induction false} FirstLockableIsGranted(st: Store, now: Time, timeout: Time, project: Id, user: Id, rows: seq<Candidate>)
    requires Distinct(rows)
    ensures ChoosesFirst(st, now, user, rows, FirstGrant(st, now, timeout, project, user, rows))
    decreases |rows|
  {
    if rows != [] {
      FailedGrantOnlySweeps(st, now, timeout, project, user, rows[0]);
      var first := Grant(st, now, timeout, project, user, rows[0]);
      if first.granted {
        assert IsFirstLockable(st, now, user, rows, 0);
      } else {
        FirstLockableIsGranted(first.store, now, timeout, project, user, rows[1..]);
        var chosen := FirstGrant(first.store, now, timeout, project, user, rows[1..]);
        ChoosesAfterFailure(st, first.store, now, user, rows, chosen);
      }
    }
  }

  /** ---- What a request answers ---- */

  // The user's tasks of the project with more than ten seconds left in the user's hash.
  predicate StillHeld(cfg: Config, st: Store, now: Time, project: Id, user: Id, task: Id) {
    && task in st.Tasks(user) && task in cfg.tasks && cfg.tasks[task].project == project
    && st.Tasks(user)[task] - now > 10.0
  }

  lemma LongestIsStillHeld(cfg: Config, s: System, step: Step)
    requires Enabled(cfg, s, step) && step.Request? && !step.saved
    ensures Reusable(s.store, s.clock, step.user, step.best) <==>
              exists t :: StillHeld(cfg, s.store, s.clock, step.project, step.user, t)
    ensures Reusable(s.store, s.clock, step.user, step.best) ==>
              StillHeld(cfg, s.store, s.clock, step.project, step.user, step.best.value)
  {
    var st := s.store;
    if Reusable(st, s.clock, step.user, step.best) {
      assert step.best.value in ProjectTasks(cfg, st, step.project, step.user);
      assert StillHeld(cfg, st, s.clock, step.project, step.user, step.best.value);
    }
    if t :| StillHeld(cfg, st, s.clock, step.project, step.user, t) {
      assert t in ProjectTasks(cfg, st, step.project, step.user);
    }
  }

  // A request other than for saved tasks hands out the longest lock the user holds in the project, if it
  // has more than ten seconds left, and changes no lock. Any other request answers with the first
  // candidate whose lock can be acquired, or with none if there is none.
  lemma RequestAnswers(cfg: Config, s: System, step: Step)
    requires Enabled(cfg, s, step) && step.Request? && Distinct(step.rows)
    ensures var chosen := Schedule(cfg, s.store, s.clock, step.timeout, step.project, step.user, step.saved, step.best, step.rows);
            if !step.saved && exists t :: StillHeld(cfg, s.store, s.clock, step.project, step.user, t) then
              && chosen.store.hashes == s.store.hashes && chosen.store.deadlines == s.store.deadlines
              && chosen.task.Some? && StillHeld(cfg, s.store, s.clock, step.project, step.user, chosen.task.value)
              && forall t | StillHeld(cfg, s.store, s.clock, step.project, step.user, t) ::
                   s.store.Tasks(step.user)[t] <= s.store.Tasks(step.user)[chosen.task.value]
            else
              ChoosesFirst(s.store, s.clock, step.user, step.rows, chosen)
  {
    if !step.saved { LongestIsStillHeld(cfg, s, step); }
    if step.saved || !Reusable(s.store, s.clock, step.user, step.best) {
      var st1 := if step.saved then s.store else Remember(cfg, s.store, s.clock, step.user);
      var st2 := Purge(st1, s.clock, ActiveUsers(Decoded(step.project)));
      PurgeEffect(st1, s.clock, ActiveUsers(Decoded(step.project)));
      assert forall t :: st2.Users(t) == s.store.Users(t);
      FirstLockableIsGranted(st2, s.clock, step.timeout, step.project, step.user, step.rows);
      SameUsersSameChoice(s.store, st2, s.clock, step.user, step.rows,
                          FirstGrant(st2, s.clock, step.timeout, step.project, step.user, step.rows));
    } else {
      forall t | StillHeld(cfg, s.store, s.clock, step.project, step.user, t)
        ensures s.store.Tasks(step.user)[t] <= s.store.Tasks(step.user)[step.best.value]
      {
        assert t in ProjectTasks(cfg, s.store, step.project, step.user);
      }
    }
  }

  lemma SameUsersSameChoice(st: Store, st1: Store, now: Time, user: Id, rows: seq<Candidate>, chosen: Chosen)
    requires forall t :: st1.Users(t) == st.Users(t)
    requires ChoosesFirst(st1, now, user, rows, chosen)
    ensures ChoosesFirst(st, now, user, rows, chosen)
  {
    assert forall row :: Lockable(st1, now, user, row) == Lockable(st, now, user, row);
    if chosen.task.Some? {
      var i :| IsFirstLockable(st1, now, user, rows, i) && rows[i].task == chosen.task.value;
      assert IsFirstLockable(st, now, user, rows, i);
    }
  }
}
