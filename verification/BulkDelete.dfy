/** Deleting tasks in batches, one table after the other, each delete committed by itself. */
module BulkDelete {
  type Id = int

  const BATCH_SIZE := 100
  const MAX_ITERATIONS := 1000

  // A row of the tables task_run and result, with the task it belongs to.
  datatype Row = Row(id: Id, task: Id)

  datatype Database = Database(tasks: set<Id>, runs: set<Row>, results: set<Row>)

  datatype Table = Result | TaskRun | Task

  function Elements(ids: seq<Id>): set<Id> {
    set id | id in ids
  }

  /** ---- One batch ---- */

  function RowsOfOthers(rows: set<Row>, ids: set<Id>): set<Row> {
    set r | r in rows && r.task !in ids
  }

  // DELETE FROM the table for the tasks listed; an empty list deletes nothing. The foreign keys of
  // runs and results cascade: they go with their task.
  function DeleteFrom(db: Database, table: Table, ids: set<Id>): Database {
    match table
    case Result => db.(results := RowsOfOthers(db.results, ids))
    case TaskRun => db.(runs := RowsOfOthers(db.runs, ids))
    case Task => Database(db.tasks - ids, RowsOfOthers(db.runs, ids), RowsOfOthers(db.results, ids))
  }

  function Tables(forceReset: bool): seq<Table> {
    if forceReset then [Result, TaskRun, Task] else [Task]
  }

  // The states committed while the rows of `ids` are deleted from the tables.
  function Commits(db: Database, tables: seq<Table>, ids: set<Id>): seq<Database>
    decreases |tables|
  {
    if tables == [] then []
    else
      var next := DeleteFrom(db, tables[0], ids);
      [next] + Commits(next, tables[1..], ids)
  }

  function Last(db: Database, commits: seq<Database>): Database {
    if commits == [] then db else commits[|commits| - 1]
  }

  /** ---- All batches ---- */

  // Python's ids[start:end].
  function Slice(ids: seq<Id>, start: nat, end: nat): seq<Id>
    requires start <= end
  {
    if start >= |ids| then [] else if end >= |ids| then ids[start..] else ids[start..end]
  }

  function Batch(ids: seq<Id>, i: nat): seq<Id> {
    Slice(ids, i * BATCH_SIZE, i * BATCH_SIZE + BATCH_SIZE)
  }

  function AllCommits(db: Database, ids: seq<Id>, forceReset: bool, i: nat, n: nat): seq<Database>
    decreases n - i
  {
    if i >= n then []
    else
      var commits := Commits(db, Tables(forceReset), Elements(Batch(ids, i)));
      commits + AllCommits(Last(db, commits), ids, forceReset, i + 1, n)
  }

  lemma LastOfBoth(db: Database, a: seq<Database>, b: seq<Database>)
    ensures Last(db, a + b) == Last(Last(db, a), b)
  {
  }

  function IterationsFor(total: nat): nat {
    total / BATCH_SIZE + if total % BATCH_SIZE != 0 then 1 else 0
  }

  function Max(a: nat, b: nat): nat {
    if a >= b then a else b
  }

  // As many batches as the fullest table would need by itself, up to a limit.
  function Iterations(tasks: nat, runs: nat, results: nat): nat {
    var needed := Max(Max(IterationsFor(results), IterationsFor(runs)), IterationsFor(tasks));
    if needed >= MAX_ITERATIONS then MAX_ITERATIONS else needed
  }

  function IterationsOf(db: Database, ids: seq<Id>): nat {
    Iterations(|ids|, |set r | r in db.runs && r.task in ids|, |set r | r in db.results && r.task in ids|)
  }

  class Store {
    var db: Database
    // The states committed, up to the present one.
    ghost var history: seq<Database>

    ghost predicate Valid()
      reads this
    {
      history != [] && db == history[|history| - 1]
    }

    constructor (db: Database)
      ensures Valid() && this.db == db && history == [db]
    {
      this.db, history := db, [db];
    }

    method CleanupTaskRecords(ids: seq<Id>, forceReset: bool)
      requires Valid()
      modifies this
      ensures Valid()
      ensures history == old(history) + Commits(old(db), Tables(forceReset), Elements(ids))
      ensures db == Last(old(db), Commits(old(db), Tables(forceReset), Elements(ids)))
      ensures forceReset ==> ResultsThenRunsThenTasks(old(db), history[|old(history)|..], ids)
      ensures !forceReset ==> |history| == |old(history)| + 1 && Emptied(old(db), db, ids, true, true, true)
    {
      ghost var before := db;
      CommitsInOrder(db, ids, forceReset);
      var tables := Tables(forceReset);
      var i := 0;
      ghost var done: seq<Database> := [];
      while i < |tables|
        invariant 0 <= i <= |tables|
        invariant Valid() && history == old(history) + done && db == Last(old(db), done)
        invariant done + Commits(db, tables[i..], Elements(ids)) == Commits(old(db), tables, Elements(ids))
      {
        OneTable(done, db, tables, i, Elements(ids));
        db := DeleteFrom(db, tables[i], Elements(ids));
        history := history + [db];
        done := done + [db];
        i := i + 1;
      }
      assert tables[i..] == [] && done == done + [];
    }

    method DeleteBatches(ids: seq<Id>, forceReset: bool, totalIterations: nat)
      requires Valid()
      modifies this
      ensures Valid()
      ensures history == old(history) + AllCommits(old(db), ids, forceReset, 0, totalIterations)
    {
      ghost var all := history + AllCommits(db, ids, forceReset, 0, totalIterations);
      var i := 0;
      while i < totalIterations
        invariant 0 <= i <= totalIterations && Valid()
        invariant history + AllCommits(db, ids, forceReset, i, totalIterations) == all
      {
        OneBatch(history, db, ids, forceReset, i, totalIterations);
        var start := i * BATCH_SIZE;
        var batch := Slice(ids, start, start + BATCH_SIZE);
        CleanupTaskRecords(batch, forceReset);
        i := i + 1;
      }
    }

    method DeleteBulkTasksInBatches(ids: seq<Id>, forceReset: bool)
      requires Valid()
      modifies this
      ensures Valid()
      ensures history == old(history) + AllCommits(old(db), ids, forceReset, 0, IterationsOf(old(db), ids))
      ensures var runs, results := set r | r in old(db.runs) && r.task in ids, set r | r in old(db.results) && r.task in ids;
              |history| == |old(history)| + (if forceReset then 3 else 1) * Iterations(|ids|, |runs|, |results|)
      ensures Emptied(old(db), db, if |ids| <= 100 * 1000 then ids else ids[..100 * 1000], true, true, true)
    {
      FirstTasksAreDeleted(db, ids, forceReset);
      CommitsAreCounted(db, ids, forceReset, 0, IterationsOf(db, ids));
      LastIsLast(history, AllCommits(db, ids, forceReset, 0, IterationsOf(db, ids)));
      var totalTaskrun := |set r | r in db.runs && r.task in ids|;
      var totalResult := |set r | r in db.results && r.task in ids|;
      var totalIterations := Iterations(|ids|, totalTaskrun, totalResult);
      DeleteBatches(ids, forceReset, totalIterations);
    }
  }

  // Which of the three tables have lost the rows of the tasks; nothing else has changed.
  ghost predicate Emptied(before: Database, db: Database, ids: seq<Id>, results: bool, runs: bool, tasks: bool) {
    && (forall r :: r in db.results <==> r in before.results && !(results && r.task in ids))
    && (forall r :: r in db.runs <==> r in before.runs && !(runs && r.task in ids))
    && (forall t :: t in db.tasks <==> t in before.tasks && !(tasks && t in ids))
  }

  ghost predicate ResultsThenRunsThenTasks(before: Database, commits: seq<Database>, ids: seq<Id>) {
    && |commits| == 3
    && Emptied(before, commits[0], ids, true, false, false)
    && Emptied(before, commits[1], ids, true, true, false)
    && Emptied(before, commits[2], ids, true, true, true)
  }

  // With force_reset the rows go in the order result, task_run, task; without it all go with the tasks.
  lemma CommitsInOrder(db: Database, ids: seq<Id>, forceReset: bool)
    ensures var commits := Commits(db, Tables(forceReset), Elements(ids));
            if forceReset then ResultsThenRunsThenTasks(db, commits, ids)
            else |commits| == 1 && Emptied(db, commits[0], ids, true, true, true)
  {
    var all := Elements(ids);
    if forceReset {
      var db1 := DeleteFrom(db, Result, all);
      var db2 := DeleteFrom(db1, TaskRun, all);
      assert Tables(true)[1..] == [TaskRun, Task] && [TaskRun, Task][1..] == [Task] && [Task][1..] == [];
      assert Commits(db2, [Task], all) == [DeleteFrom(db2, Task, all)];
      assert Commits(db1, [TaskRun, Task], all) == [db2, DeleteFrom(db2, Task, all)];
    } else {
      assert Commits(db, [Task], all) == [DeleteFrom(db, Task, all)];
    }
  }

  lemma {:induction false} CommitsAreCounted(db: Database, ids: seq<Id>, forceReset: bool, i: nat, n: nat)
    requires i <= n
    ensures |AllCommits(db, ids, forceReset, i, n)| == (if forceReset then 3 else 1) * (n - i)
    decreases n - i
  {
    if i < n {
      var commits := Commits(db, Tables(forceReset), Elements(Batch(ids, i)));
      CommitsInOrder(db, Batch(ids, i), forceReset);
      CommitsAreCounted(Last(db, commits), ids, forceReset, i + 1, n);
    }
  }

  lemma LastIsLast(history: seq<Database>, commits: seq<Database>)
    requires history != []
    ensures (history + commits)[|history + commits| - 1] == Last(history[|history| - 1], commits)
  {
  }

  lemma OneTable(done: seq<Database>, db: Database, tables: seq<Table>, i: nat, ids: set<Id>)
    requires i < |tables|
    ensures var next := DeleteFrom(db, tables[i], ids);
      done + Commits(db, tables[i..], ids) == done + [next] + Commits(next, tables[i + 1..], ids)
  {
    assert tables[i..][0] == tables[i] && tables[i..][1..] == tables[i + 1..];
  }

  lemma OneBatch(history: seq<Database>, db: Database, ids: seq<Id>, forceReset: bool, i: nat, n: nat)
    requires i < n
    ensures var commits := Commits(db, Tables(forceReset), Elements(Batch(ids, i)));
      history + AllCommits(db, ids, forceReset, i, n) ==
        history + commits + AllCommits(Last(db, commits), ids, forceReset, i + 1, n)
  {
  }

  /** ---- No row is left behind ---- */

  // No run or result refers to a task that was there before and is deleted now.
  ghost predicate NoneDangling(before: Database, db: Database) {
    && (forall r | r in db.runs :: r.task in before.tasks ==> r.task in db.tasks)
    && (forall r | r in db.results :: r.task in before.tasks ==> r.task in db.tasks)
  }

  // Only rows of the tasks in `ids` are deleted, and no rows are added.
  ghost predicate OthersKept(before: Database, db: Database, ids: set<Id>) {
    && db.tasks <= before.tasks <= db.tasks + ids
    && db.runs <= before.runs && (forall r | r in before.runs && r.task !in ids :: r in db.runs)
    && db.results <= before.results && (forall r | r in before.results && r.task !in ids :: r in db.results)
  }

  ghost predicate Safe(before: Database, db: Database, ids: set<Id>) {
    OthersKept(before, db, ids) && NoneDangling(before, db)
  }

  lemma DeleteIsSafe(before: Database, db: Database, table: Table, ids: set<Id>, all: set<Id>)
    requires Safe(before, db, all) && ids <= all
    ensures Safe(before, DeleteFrom(db, table, ids), all)
  {
  }

  lemma {:induction false} CommitsAreSafe(before: Database, db: Database, tables: seq<Table>, ids: set<Id>, all: set<Id>)
    requires Safe(before, db, all) && ids <= all
    ensures forall d | d in Commits(db, tables, ids) :: Safe(before, d, all)
    decreases |tables|
  {
    if tables != [] {
      DeleteIsSafe(before, db, tables[0], ids, all);
      CommitsAreSafe(before, DeleteFrom(db, tables[0], ids), tables[1..], ids, all);
    }
  }

  lemma {:induction false} AllCommitsAreSafe(before: Database, db: Database, ids: seq<Id>, forceReset: bool, i: nat, n: nat)
    requires Safe(before, db, Elements(ids))
    ensures forall d | d in AllCommits(db, ids, forceReset, i, n) :: Safe(before, d, Elements(ids))
    decreases n - i
  {
    if i < n {
      var batch := Elements(Batch(ids, i));
      var commits := Commits(db, Tables(forceReset), batch);
      CommitsAreSafe(before, db, Tables(forceReset), batch, Elements(ids));
      AllCommitsAreSafe(before, Last(db, commits), ids, forceReset, i + 1, n);
    }
  }

  // At every committed state, with or without force_reset, no run or result refers to a deleted
  // task, and only rows of the tasks to delete are gone.
  lemma EveryCommitIsSafe(db: Database, ids: seq<Id>, forceReset: bool, d: Database)
    requires d in AllCommits(db, ids, forceReset, 0, IterationsOf(db, ids))
    ensures OthersKept(db, d, Elements(ids))
    ensures NoneDangling(db, d)
  {
    AllCommitsAreSafe(db, db, ids, forceReset, 0, IterationsOf(db, ids));
  }

  /** ---- Which tasks are deleted ---- */

  // The ids of the batches from i up to n, one after the other.
  function Covered(ids: seq<Id>, i: nat, n: nat): seq<Id>
    decreases n - i
  {
    if i >= n then [] else Batch(ids, i) + Covered(ids, i + 1, n)
  }

  lemma {:induction false} BatchesAreSlice(ids: seq<Id>, i: nat, n: nat)
    requires i <= n
    ensures Covered(ids, i, n) == Slice(ids, i * BATCH_SIZE, n * BATCH_SIZE)
    decreases n - i
  {
    if i < n { BatchesAreSlice(ids, i + 1, n); }
  }

  // The fewest batches of a hundred that hold the rows of the fullest table, or a thousand.
  lemma IterationsAreFewest(tasks: nat, runs: nat, results: nat)
    ensures var n := Iterations(tasks, runs, results);
      && n <= 1000
      && (n < 1000 ==> tasks <= 100 * n && runs <= 100 * n && results <= 100 * n)
      && (n > 0 ==> tasks > 100 * (n - 1) || runs > 100 * (n - 1) || results > 100 * (n - 1))
  {
  }

  // The batches list every id, once and in order, exactly when there are at most a thousand
  // batches of them, however many runs and results there are.
  lemma BatchesCoverIff(ids: seq<Id>, runs: nat, results: nat)
    ensures Covered(ids, 0, Iterations(|ids|, runs, results)) == ids <==> |ids| <= 100 * 1000
  {
    var n := Iterations(|ids|, runs, results);
    BatchesAreSlice(ids, 0, n);
    assert IterationsFor(|ids|) * BATCH_SIZE >= |ids|;
  }

  // What is left when all rows of the tasks are deleted.
  function Without(db: Database, ids: set<Id>): Database {
    Database(db.tasks - ids, RowsOfOthers(db.runs, ids), RowsOfOthers(db.results, ids))
  }

  lemma OneBatchDeletes(db: Database, ids: set<Id>, forceReset: bool)
    ensures Last(db, Commits(db, Tables(forceReset), ids)) == Without(db, ids)
  {
    if forceReset {
      var db1 := DeleteFrom(db, Result, ids);
      var db2 := DeleteFrom(db1, TaskRun, ids);
      assert Tables(true)[1..] == [TaskRun, Task] && [TaskRun, Task][1..] == [Task] && [Task][1..] == [];
      assert Commits(db2, [Task], ids) == [DeleteFrom(db2, Task, ids)];
      assert Commits(db1, [TaskRun, Task], ids) == [db2, DeleteFrom(db2, Task, ids)];
      assert DeleteFrom(db2, Task, ids) == Without(db, ids);
    } else {
      assert Commits(db, [Task], ids) == [DeleteFrom(db, Task, ids)];
    }
  }

  lemma TwoBatchesDelete(db: Database, a: set<Id>, b: set<Id>)
    ensures Without(Without(db, a), b) == Without(db, a + b)
  {
  }

  lemma ElementsOfBoth(a: seq<Id>, b: seq<Id>)
    ensures Elements(a + b) == Elements(a) + Elements(b)
  {
  }

  lemma {:induction false} BatchesDelete(db: Database, ids: seq<Id>, forceReset: bool, i: nat, n: nat)
    ensures Last(db, AllCommits(db, ids, forceReset, i, n)) == Without(db, Elements(Covered(ids, i, n)))
    decreases n - i
  {
    if i < n {
      var batch := Elements(Batch(ids, i));
      var commits := Commits(db, Tables(forceReset), batch);
      var next := Last(db, commits);
      OneBatchDeletes(db, batch, forceReset);
      BatchesDelete(next, ids, forceReset, i + 1, n);
      LastOfBoth(db, commits, AllCommits(next, ids, forceReset, i + 1, n));
      ElementsOfBoth(Batch(ids, i), Covered(ids, i + 1, n));
      TwoBatchesDelete(db, batch, Elements(Covered(ids, i + 1, n)));
    }
  }

  // When the job ends, exactly the first hundred thousand tasks listed are gone with all their runs
  // and results, whether or not force_reset asked for these.
  lemma FirstTasksAreDeleted(db: Database, ids: seq<Id>, forceReset: bool)
    ensures var first := if |ids| <= 100 * 1000 then ids else ids[..100 * 1000];
            Emptied(db, Last(db, AllCommits(db, ids, forceReset, 0, IterationsOf(db, ids))), first, true, true, true)
  {
    var n := IterationsOf(db, ids);
    BatchesDelete(db, ids, forceReset, 0, n);
    BatchesAreSlice(ids, 0, n);
    assert IterationsFor(|ids|) * BATCH_SIZE >= |ids|;
    assert Slice(ids, 0, n * BATCH_SIZE) == if |ids| <= 100 * 1000 then ids else ids[..100 * 1000];
  }

  // Without force_reset the job deletes the same rows as with it.
  lemma ForceResetMakesNoDifference(db: Database, ids: seq<Id>)
    ensures var n := IterationsOf(db, ids);
      Last(db, AllCommits(db, ids, false, 0, n)) == Last(db, AllCommits(db, ids, true, 0, n))
  {
    var n := IterationsOf(db, ids);
    BatchesDelete(db, ids, false, 0, n);
    BatchesDelete(db, ids, true, 0, n);
  }
}
