/**
 The task list of a project owner sorted by lock status: one page is merged from a window on
 the unlocked tasks and a slice of the locked ones.
 */
module Paging {
  // Python's s[from:to], with negative indices counted from the end.
  function Index(i: int, n: nat): nat {
    if i >= n then n else if i >= 0 then i else if i + n >= 0 then i + n else 0
  }

  function PySlice<T>(s: seq<T>, from: int, to: int): seq<T> {
    var lo, hi := Index(from, |s|), Index(to, |s|);
    if lo <= hi then s[lo..hi] else []
  }

  // The rows that LIMIT and OFFSET leave of an ordered query.
  function Window<T>(rows: seq<T>, limit: nat, offset: nat): seq<T> {
    if offset >= |rows| then [] else if offset + limit >= |rows| then rows[offset..] else rows[offset..offset + limit]
  }

  // Row k of the window is row offset + k, as far as there are rows and the limit allows.
  lemma WindowMeans<T>(rows: seq<T>, limit: nat, offset: nat)
    ensures var page := Window(rows, limit, offset);
            && |page| <= limit
            && (|page| < limit ==> offset + |page| >= |rows|)
            && forall k | 0 <= k < |page| :: offset + k < |rows| && page[k] == rows[offset + k]
  {
  }

  datatype Direction = Ascending | Descending

  // All tasks in the order of the list: completed, incomplete, locked; or the reverse.
  function Listed<T>(unlocked: seq<T>, locked: seq<T>, direction: Direction): seq<T> {
    if direction.Ascending? then unlocked + locked else locked + unlocked
  }

  // `unlocked` and `locked` are what the two queries would return without a window, `total` is
  // the number of tasks as counted before.
  method SearchLockStatus<T>(unlocked: seq<T>, locked: seq<T>, total: int, limit: nat, offset: nat, direction: Direction)
    returns (tasks: seq<T>)
    ensures direction.Descending? || total == |unlocked| + |locked| ==>
              tasks == Window(Listed(unlocked, locked, direction), limit, offset)
    ensures tasks == Page(unlocked, locked, total, limit, offset, direction)
    ensures direction.Ascending? && total == |unlocked| + |locked| ==> tasks == Window(unlocked + locked, limit, offset)
    ensures direction.Descending? ==> tasks == Window(locked + unlocked, limit, offset)
    ensures direction.Ascending? ==>
              tasks == if offset >= total - |locked| then Window(locked, limit, offset + |locked| - total)
                       else if offset < |unlocked| then Window(unlocked + locked, limit, offset)
                       else Window(locked, limit, 0)
  {
    if direction.Ascending? {
      tasks := FillWithLocked(unlocked, locked, total, limit, offset);
    } else {
      tasks := FillWithUnlocked(unlocked, locked, limit, offset);
    }
    PageIsWindow(unlocked, locked, total, limit, offset, direction);
    AscendingPageIs(unlocked, locked, total, limit, offset);
  }

  // The branch of the ascending order.
  method FillWithLocked<T>(unlocked: seq<T>, locked: seq<T>, total: int, limit: nat, offset: nat) returns (tasks: seq<T>)
    ensures tasks == AscendingPage(unlocked, locked, total, limit, offset)
  {
    var lockedTasks := locked;
    var results: seq<T> := [];
    if offset < total - |lockedTasks| {
      results := Window(unlocked, limit, offset);
    } else {
      lockedTasks := PySlice(lockedTasks, offset - (total - |lockedTasks|), |lockedTasks|);
    }
    tasks := results;
    tasks := tasks + PySlice(lockedTasks, 0, limit - |tasks|);
  }

  // The branch of the descending order.
  method FillWithUnlocked<T>(unlocked: seq<T>, locked: seq<T>, limit: nat, offset: nat) returns (tasks: seq<T>)
    ensures tasks == DescendingPage(unlocked, locked, limit, offset)
  {
    tasks := PySlice(locked, offset, offset + limit);
    if |tasks| < limit {
      var newOffset := if offset >= |locked| then offset - |locked| else 0;
      var newLimit := limit - |tasks|;
      tasks := tasks + Window(unlocked, newLimit, newOffset);
    }
  }

  // The page, for any count of the tasks.
  function Page<T>(unlocked: seq<T>, locked: seq<T>, total: int, limit: nat, offset: nat, direction: Direction): seq<T> {
    if direction.Ascending? then AscendingPage(unlocked, locked, total, limit, offset)
    else DescendingPage(unlocked, locked, limit, offset)
  }

  function AscendingPage<T>(unlocked: seq<T>, locked: seq<T>, total: int, limit: nat, offset: nat): seq<T> {
    if offset < total - |locked| then
      var page := Window(unlocked, limit, offset);
      page + PySlice(locked, 0, limit - |page|)
    else [] + PySlice(PySlice(locked, offset - (total - |locked|), |locked|), 0, limit)
  }

  function DescendingPage<T>(unlocked: seq<T>, locked: seq<T>, limit: nat, offset: nat): seq<T> {
    var page := PySlice(locked, offset, offset + limit);
    if |page| < limit then
      page + Window(unlocked, limit - |page|, if offset >= |locked| then offset - |locked| else 0)
    else page
  }

  lemma PageIsWindow<T>(unlocked: seq<T>, locked: seq<T>, total: int, limit: nat, offset: nat, direction: Direction)
    ensures direction.Descending? || total == |unlocked| + |locked| ==>
              Page(unlocked, locked, total, limit, offset, direction) ==
                Window(Listed(unlocked, locked, direction), limit, offset)
  {
    if direction.Ascending? {
      AscendingIsWindow(unlocked, locked, limit, offset);
    } else {
      DescendingIsWindow(unlocked, locked, limit, offset);
    }
  }

  // Past the unlocked tasks the window lies in the locked ones.
  lemma WindowPast<T>(unlocked: seq<T>, locked: seq<T>, limit: nat, offset: nat)
    requires offset >= |unlocked|
    ensures Window(unlocked + locked, limit, offset) == Window(locked, limit, offset - |unlocked|)
  {
  }

  // From before the end of the first part, the window takes what is left of it and then the second.
  lemma WindowAcross<T>(first: seq<T>, second: seq<T>, limit: nat, offset: nat)
    requires offset < |first|
    ensures var page := Window(first, limit, offset);
            Window(first + second, limit, offset) == page + PySlice(second, 0, limit - |page|)
  {
  }

  lemma SliceOfRest<T>(locked: seq<T>, skipped: nat, limit: nat)
    ensures PySlice(PySlice(locked, skipped, |locked|), 0, limit) == Window(locked, limit, skipped)
  {
  }

  lemma AscendingIsWindow<T>(unlocked: seq<T>, locked: seq<T>, limit: nat, offset: nat)
    ensures AscendingPage(unlocked, locked, |unlocked| + |locked|, limit, offset) == Window(unlocked + locked, limit, offset)
  {
    if offset < |unlocked| {
      WindowAcross(unlocked, locked, limit, offset);
    } else {
      WindowPast(unlocked, locked, limit, offset);
      SliceOfRest(locked, offset - |unlocked|, limit);
    }
  }

  // Whatever the count: past the unlocked tasks that it promises, the page lies in the locked ones.
  lemma AscendingPageIs<T>(unlocked: seq<T>, locked: seq<T>, total: int, limit: nat, offset: nat)
    ensures AscendingPage(unlocked, locked, total, limit, offset) ==
              if offset >= total - |locked| then Window(locked, limit, offset + |locked| - total)
              else if offset < |unlocked| then Window(unlocked + locked, limit, offset)
              else Window(locked, limit, 0)
  {
    if offset >= total - |locked| {
      SliceOfRest(locked, offset + |locked| - total, limit);
    } else if offset < |unlocked| {
      WindowAcross(unlocked, locked, limit, offset);
    } else {
      assert PySlice(locked, 0, limit) == Window(locked, limit, 0);
    }
  }

  lemma DescendingIsWindow<T>(unlocked: seq<T>, locked: seq<T>, limit: nat, offset: nat)
    ensures DescendingPage(unlocked, locked, limit, offset) == Window(locked + unlocked, limit, offset)
  {
    if offset < |locked| {
      WindowAcross(locked, unlocked, limit, offset);
    } else {
      WindowPast(locked, unlocked, limit, offset);
    }
  }

  // The ascending list is right on every page exactly when the count agrees with the queries.
  lemma AscendingIsWindowIff<T>(unlocked: seq<T>, locked: seq<T>, total: int)
    requires total > 0 && locked != []
    requires forall i, j | 0 <= i < j < |unlocked + locked| :: (unlocked + locked)[i] != (unlocked + locked)[j]
    ensures (forall limit: nat, offset: nat ::
              AscendingPage(unlocked, locked, total, limit, offset) == Window(unlocked + locked, limit, offset))
        <==> total == |unlocked| + |locked|
  {
    var all := unlocked + locked;
    if total == |unlocked| + |locked| {
      forall limit: nat, offset: nat
        ensures AscendingPage(unlocked, locked, total, limit, offset) == Window(all, limit, offset)
      {
        AscendingIsWindow(unlocked, locked, limit, offset);
      }
    } else {
      var offset := if total >= |locked| then total - |locked| else 0;
      var k := offset - (total - |locked|);
      var page := AscendingPage(unlocked, locked, total, 1, offset);
      assert PySlice(locked, k, |locked|) == locked[k..];
      assert page == [locked[k]];
      assert locked[k] == all[|unlocked| + k];
      assert Window(all, 1, offset) != [locked[k]] by {
        if offset < |all| { assert Window(all, 1, offset)[0] == all[offset]; }
      }
      assert page != Window(all, 1, offset);
    }
  }

  /** ---- Consecutive pages ---- */

  // The first n pages, one after the other.
  function Pages<T>(all: seq<T>, limit: nat, n: nat): seq<T> {
    if n == 0 then [] else Pages(all, limit, n - 1) + Window(all, limit, (n - 1) * limit)
  }

  lemma PrefixGrows<T>(all: seq<T>, limit: nat, offset: nat)
    ensures (if offset <= |all| then all[..offset] else all) + Window(all, limit, offset)
         == if offset + limit <= |all| then all[..offset + limit] else all
  {
  }

  lemma {:induction false} PagesArePrefix<T>(all: seq<T>, limit: nat, n: nat)
    ensures n * limit >= 0
    ensures Pages(all, limit, n) == if n * limit <= |all| then all[..n * limit] else all
  {
    if n > 0 {
      PagesArePrefix(all, limit, n - 1);
      var offset := (n - 1) * limit;
      assert n * limit == offset + limit;
      PrefixGrows(all, limit, offset);
    }
  }

  // Paging to the end lists each task exactly once.
  lemma PagesListEachOnce<T>(unlocked: seq<T>, locked: seq<T>, direction: Direction, limit: nat, n: nat)
    requires n * limit >= |unlocked| + |locked|
    ensures multiset(Pages(Listed(unlocked, locked, direction), limit, n)) == multiset(unlocked) + multiset(locked)
  {
    PagesListAll(Listed(unlocked, locked, direction), limit, n);
  }

  lemma PagesListAll<T>(all: seq<T>, limit: nat, n: nat)
    requires n * limit >= |all|
    ensures Pages(all, limit, n) == all
  {
    PagesArePrefix(all, limit, n);
    var end := n * limit;
    if end <= |all| { assert all[..end] == all; }
  }
}
