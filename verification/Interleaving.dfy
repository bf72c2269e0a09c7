/**
 One call of acquire_lock as the separate Redis commands it issues, with any number of
 calls, releases and clock ticks in between, on one resource with a finite limit.
 */
module Interleaving {
  import opened Options
  import opened LockTable
  import LockStore
  import Sets

  // Where a call stands; `since` is the clock reading it started with.
  datatype Phase =
    | Reading(since: Time)                        // about to read the hash for expired entries
    | Deleting(since: Time, expired: set<Id>)     // about to delete the ones it saw
    | Checking(since: Time)                       // about to look for its own entry
    | Waiting(since: Time)                        // about to take the update mutex
    | Entering(since: Time)                       // in the section, about to look for the mutex
    | Counting(since: Time)                       // in the section, about to count the entries
    | Writing(since: Time)                        // in the section, about to write its entry
    | Leaving(result: bool)                       // in the section, about to release the mutex
    | Finished(result: bool)

  datatype Call = Call(client: Id, phase: Phase)

  // `deadline` is the instant after which Redis drops the whole hash; `expirations` counts how often
  // the mutex ran out while a call was in its section.
  datatype World = World(clock: Time, hash: Table, deadline: Option<Time>, mutex: Option<Id>, calls: map<Id, Call>,
                         expirations: nat)

  datatype Event =
    | Begin(call: Id, client: Id)
    | Proceed(call: Id)
    | GiveUp(call: Id)
    | MutexExpires
    | ReleaseHeld(client: Id)
    | Tick(elapsed: Time)

  predicate InSection(p: Phase) {
    p.Entering? || p.Counting? || p.Writing? || p.Leaving?
  }

  predicate Allowed(w: World, e: Event) {
    match e
    case Begin(call, _) => call !in w.calls
    case Proceed(call) =>
      && call in w.calls
      && !w.calls[call].phase.Finished?
      && (w.calls[call].phase.Waiting? ==> w.mutex.None?)
    case GiveUp(call) => call in w.calls && w.calls[call].phase.Waiting?
    case MutexExpires => w.mutex.Some?
    case ReleaseHeld(client) => client in w.hash
    case Tick(elapsed) => elapsed >= 0.0
  }

  function Expired(h: Table, since: Time): set<Id> {
    set c | c in h && since > h[c]
  }

  // With its last entry a hash loses its deadline.
  function Delete(w: World, expired: set<Id>): World {
    var rest := w.hash - expired;
    w.(hash := rest, deadline := if rest == map[] then None else w.deadline)
  }

  predicate Lapses(w: World, later: Time) {
    w.deadline.Some? && later > w.deadline.value
  }

  // Redis drops a hash that is past its deadline.
  function Later(w: World, later: Time): World {
    if Lapses(w, later) then w.(clock := later, hash := map[], deadline := None) else w.(clock := later)
  }

  function Move(w: World, call: Id, phase: Phase): World
    requires call in w.calls
  {
    w.(calls := w.calls[call := w.calls[call].(phase := phase)])
  }

  // The next command of a call.
  function Advance(w: World, duration: Time, limit: int, call: Id): World
    requires Allowed(w, Proceed(call))
  {
    var client := w.calls[call].client;
    match w.calls[call].phase
    case Reading(since) => Move(w, call, Deleting(since, Expired(w.hash, since)))
    case Deleting(since, expired) => Move(Delete(w, expired), call, Checking(since))
    case Checking(since) => Move(w, call, if client in w.hash then Finished(true) else Waiting(since))
    case Waiting(since) => Move(w, call, Entering(since)).(mutex := Some(call))
    case Entering(since) => Move(w, call, if w.mutex.Some? then Counting(since) else Leaving(false))
    case Counting(since) => Move(w, call, if |w.hash| < limit then Writing(since) else Leaving(false))
    case Writing(since) =>
      Move(w, call, Leaving(true)).(hash := w.hash[client := since + duration], deadline := Some(w.clock + duration))
    case Leaving(result) =>
      Move(w, call, Finished(result)).(mutex := if w.mutex == Some(call) then None else w.mutex)
    case Finished(_) => w
  }

  function Next(w: World, duration: Time, limit: int, e: Event): World
    requires Allowed(w, e)
  {
    match e
    case Begin(call, client) => w.(calls := w.calls[call := Call(client, Reading(w.clock))])
    case Proceed(call) => Advance(w, duration, limit, call)
    case GiveUp(call) => Move(w, call, Finished(false))
    case MutexExpires => w.(mutex := None, expirations := w.expirations + 1)
    case ReleaseHeld(client) => w.(hash := Release(w.hash, client, w.clock))
    case Tick(elapsed) => Later(w, w.clock + elapsed)
  }

  ghost predicate Possible(w: World, duration: Time, limit: int, events: seq<Event>)
    decreases |events|
  {
    events == [] || (Allowed(w, events[0]) && Possible(Next(w, duration, limit, events[0]), duration, limit, events[1..]))
  }

  ghost function After(w: World, duration: Time, limit: int, events: seq<Event>): World
    requires Possible(w, duration, limit, events)
    decreases |events|
  {
    if events == [] then w else After(Next(w, duration, limit, events[0]), duration, limit, events[1..])
  }

  /** ---- The bound ---- */

  function Section(w: World): set<Id> {
    set c | c in w.calls && InSection(w.calls[c].phase)
  }

  // Calls that counted and will add an entry.
  function Writers(w: World): set<Id> {
    set c | c in w.calls && w.calls[c].phase.Writing?
  }

  function Holder(w: World): set<Id> {
    if w.mutex.Some? then {w.mutex.value} else {}
  }

  // Calls still in the section although their mutex ran out.
  function Overtaken(w: World): set<Id> {
    Section(w) - Holder(w)
  }

  // Entries and entries to come stay within the limit, but for one per expired mutex.
  ghost predicate Bounded(w: World, limit: int) {
    && |w.hash| + |Writers(w)| <= limit + w.expirations
    && |Overtaken(w)| <= w.expirations
  }

  // No entry, no writer and no overtaken call was added.
  ghost predicate NoneAdded(w: World, next: World) {
    && next.expirations == w.expirations
    && next.hash.Keys <= w.hash.Keys && Writers(next) <= Writers(w) && Overtaken(next) <= Overtaken(w)
  }

  // A writer turned into an entry.
  ghost predicate Wrote(w: World, next: World, call: Id, client: Id) {
    && next.expirations == w.expirations
    && call in Writers(w) && Writers(next) == Writers(w) - {call}
    && next.hash.Keys == w.hash.Keys + {client} && Overtaken(next) == Overtaken(w)
  }

  // A call that found room became a writer: beside it only overtaken calls can be writers.
  ghost predicate FoundRoom(w: World, next: World, limit: int) {
    && next.expirations == w.expirations
    && next.hash == w.hash && |w.hash| < limit
    && Overtaken(next) == Overtaken(w) && Writers(next) <= Overtaken(w) + Holder(w)
  }

  lemma NoneAddedKeepsBound(w: World, next: World, limit: int)
    requires Bounded(w, limit) && NoneAdded(w, next)
    ensures Bounded(next, limit)
  {
    Sets.SubsetSize(next.hash.Keys, w.hash.Keys);
    assert |next.hash.Keys| == |next.hash| && |w.hash.Keys| == |w.hash|;
    Sets.SubsetSize(Writers(next), Writers(w));
    Sets.SubsetSize(Overtaken(next), Overtaken(w));
  }

  lemma WroteKeepsBound(w: World, next: World, limit: int, call: Id, client: Id)
    requires Bounded(w, limit) && Wrote(w, next, call, client)
    ensures Bounded(next, limit)
  {
    Sets.UnionSize(w.hash.Keys, {client});
    assert |next.hash.Keys| == |next.hash| && |w.hash.Keys| == |w.hash|;
  }

  lemma FoundRoomKeepsBound(w: World, next: World, limit: int)
    requires Bounded(w, limit) && FoundRoom(w, next, limit)
    ensures Bounded(next, limit)
  {
    Sets.SubsetSize(Writers(next), Overtaken(w) + Holder(w));
    Sets.UnionSize(Overtaken(w), Holder(w));
  }

  // What a change of phase does to the section and to the writers.
  lemma Moved(w: World, next: World, call: Id, moved: Call)
    requires next.calls == w.calls[call := moved]
    ensures Section(next) == if InSection(moved.phase) then Section(w) + {call} else Section(w) - {call}
    ensures Writers(next) == if moved.phase.Writing? then Writers(w) + {call} else Writers(w) - {call}
  {
    forall c ensures c in Section(next) <==> (c in Section(w) && c != call) || (c == call && InSection(moved.phase)) {}
    forall c ensures c in Writers(next) <==> (c in Writers(w) && c != call) || (c == call && moved.phase.Writing?) {}
  }

  lemma WriterWrites(w: World, duration: Time, limit: int, call: Id)
    requires Allowed(w, Proceed(call)) && w.calls[call].phase.Writing?
    ensures Wrote(w, Advance(w, duration, limit, call), call, w.calls[call].client)
  {
    var next := Advance(w, duration, limit, call);
    Moved(w, next, call, next.calls[call]);
  }

  lemma WritersInSection(w: World)
    ensures Writers(w) <= Section(w)
  {
    forall c | c in Writers(w) ensures c in Section(w) {}
  }

  lemma CounterFindsRoom(w: World, duration: Time, limit: int, call: Id)
    requires Allowed(w, Proceed(call)) && w.calls[call].phase.Counting? && |w.hash| < limit
    ensures FoundRoom(w, Advance(w, duration, limit, call), limit)
  {
    var next := Advance(w, duration, limit, call);
    Moved(w, next, call, next.calls[call]);
    assert Section(next) == Section(w);
    WritersInSection(next);
  }

  lemma OthersAddNothing(w: World, duration: Time, limit: int, call: Id)
    requires Allowed(w, Proceed(call)) && !w.calls[call].phase.Writing?
    requires w.calls[call].phase.Counting? ==> |w.hash| >= limit
    ensures NoneAdded(w, Advance(w, duration, limit, call))
  {
    var next := Advance(w, duration, limit, call);
    Moved(w, next, call, next.calls[call]);
  }

  lemma AdvanceKeepsBound(w: World, duration: Time, limit: int, call: Id)
    requires Bounded(w, limit) && Allowed(w, Proceed(call))
    ensures Bounded(Advance(w, duration, limit, call), limit)
  {
    if w.calls[call].phase.Writing? {
      WriterWrites(w, duration, limit, call);
    } else if w.calls[call].phase.Counting? && |w.hash| < limit {
      CounterFindsRoom(w, duration, limit, call);
    } else {
      OthersAddNothing(w, duration, limit, call);
    }
    AnyEffectKeepsBound(w, Advance(w, duration, limit, call), limit, call, w.calls[call].client);
  }

  lemma AnyEffectKeepsBound(w: World, next: World, limit: int, call: Id, client: Id)
    requires Bounded(w, limit)
    requires NoneAdded(w, next) || Wrote(w, next, call, client) || FoundRoom(w, next, limit)
    ensures Bounded(next, limit)
  {
    if NoneAdded(w, next) {
      NoneAddedKeepsBound(w, next, limit);
    } else if Wrote(w, next, call, client) {
      WroteKeepsBound(w, next, limit, call, client);
    } else {
      FoundRoomKeepsBound(w, next, limit);
    }
  }

  lemma MutexRunsOut(w: World, next: World, limit: int)
    requires Bounded(w, limit) && w.mutex.Some?
    requires next == w.(mutex := None, expirations := w.expirations + 1)
    ensures Bounded(next, limit)
  {
    assert Writers(next) == Writers(w) && Section(next) == Section(w);
    Sets.SubsetSize(Overtaken(next), Overtaken(w) + {w.mutex.value});
    Sets.UnionSize(Overtaken(w), {w.mutex.value});
  }

  lemma EventKeepsBound(w: World, duration: Time, limit: int, e: Event)
    requires Bounded(w, limit) && Allowed(w, e)
    ensures Bounded(Next(w, duration, limit, e), limit)
  {
    if e.Proceed? {
      AdvanceKeepsBound(w, duration, limit, e.call);
    } else if e.MutexExpires? {
      MutexRunsOut(w, Next(w, duration, limit, e), limit);
    } else {
      OtherEvent(w, duration, limit, e);
      NoneAddedKeepsBound(w, Next(w, duration, limit, e), limit);
    }
  }

  lemma OtherEvent(w: World, duration: Time, limit: int, e: Event)
    requires Allowed(w, e) && !e.Proceed? && !e.MutexExpires?
    ensures NoneAdded(w, Next(w, duration, limit, e))
  {
    var next := Next(w, duration, limit, e);
    if e.Begin? || e.GiveUp? {
      Moved(w, next, e.call, next.calls[e.call]);
    }
  }

  lemma {:induction false} RunKeepsBound(w: World, duration: Time, limit: int, events: seq<Event>)
    requires Bounded(w, limit) && Possible(w, duration, limit, events)
    ensures Bounded(After(w, duration, limit, events), limit)
    decreases |events|
  {
    if events != [] {
      EventKeepsBound(w, duration, limit, events[0]);
      RunKeepsBound(Next(w, duration, limit, events[0]), duration, limit, events[1..]);
    }
  }

  function Start(clock: Time): World {
    World(clock, map[], None, None, map[], 0)
  }

  // However the calls interleave, the hash exceeds its limit by no more entries than the
  // mutex expired times; if it never expired, not at all.
  lemma LimitHolds(clock: Time, duration: Time, limit: nat, events: seq<Event>)
    requires Possible(Start(clock), duration, limit, events)
    ensures var end := After(Start(clock), duration, limit, events); |end.hash| <= limit + end.expirations
  {
    RunKeepsBound(Start(clock), duration, limit, events);
  }

  lemma {:induction false} ExpirationsAreEvents(w: World, duration: Time, limit: int, events: seq<Event>)
    requires Possible(w, duration, limit, events) && MutexExpires !in events
    ensures After(w, duration, limit, events).expirations == w.expirations
    decreases |events|
  {
    if events != [] {
      ExpirationsAreEvents(Next(w, duration, limit, events[0]), duration, limit, events[1..]);
    }
  }

  lemma LimitHoldsWithLiveMutex(clock: Time, duration: Time, limit: nat, events: seq<Event>)
    requires Possible(Start(clock), duration, limit, events) && MutexExpires !in events
    ensures |After(Start(clock), duration, limit, events).hash| <= limit
  {
    LimitHolds(clock, duration, limit, events);
    ExpirationsAreEvents(Start(clock), duration, limit, events);
  }

  lemma {:induction false} Chained(w: World, duration: Time, limit: int, first: seq<Event>, second: seq<Event>)
    requires Possible(w, duration, limit, first) && Possible(After(w, duration, limit, first), duration, limit, second)
    ensures Possible(w, duration, limit, first + second)
    ensures After(w, duration, limit, first + second) == After(After(w, duration, limit, first), duration, limit, second)
    decreases |first|
  {
    if first == [] {
      assert first + second == second;
    } else {
      assert (first + second)[1..] == first[1..] + second;
      Chained(Next(w, duration, limit, first[0]), duration, limit, first[1..], second);
    }
  }

  lemma One(w: World, duration: Time, limit: int, e: Event)
    requires Allowed(w, e)
    ensures Possible(w, duration, limit, [e]) && After(w, duration, limit, [e]) == Next(w, duration, limit, e)
  {
    assert [e][1..] == [];
  }

  lemma OneMore(w: World, duration: Time, limit: int, events: seq<Event>, e: Event)
    requires Possible(w, duration, limit, events) && Allowed(After(w, duration, limit, events), e)
    ensures Possible(w, duration, limit, events + [e])
    ensures After(w, duration, limit, events + [e]) == Next(After(w, duration, limit, events), duration, limit, e)
  {
    One(After(w, duration, limit, events), duration, limit, e);
    Chained(w, duration, limit, events, [e]);
  }

  // The world in which the call has reached a phase and the hash has changed.
  function With(w: World, call: Id, client: Id, phase: Phase, hash: Table, deadline: Option<Time>): World {
    w.(hash := hash, deadline := deadline, calls := w.calls[call := Call(client, phase)])
  }

  // A call that finds the mutex free and only expired entries gets as far as its write.
  lemma UpToTheWrite(w: World, duration: Time, call: Id, client: Id) returns (events: seq<Event>)
    requires call !in w.calls && w.mutex.None? && forall c | c in w.hash :: w.clock > w.hash[c]
    ensures Possible(w, duration, 1, events)
    ensures After(w, duration, 1, events) == With(w.(mutex := Some(call)), call, client, Writing(w.clock), map[], None)
  {
    var since, h, d := w.clock, w.hash, w.deadline;
    var inside := w.(mutex := Some(call));
    ReadsExpired(w, duration, call, client, since, h, d);
    DeletesExpired(w, duration, call, client, since, h, d);
    ChecksEmpty(w, duration, call, client, since);
    CountsEmpty(inside, duration, call, client, since);
    events := [Begin(call, client)];
    One(w, duration, 1, Begin(call, client));
    events := Grow(w, duration, events, call, With(w, call, client, Reading(since), h, d));
    events := Grow(w, duration, events, call, With(w, call, client, Deleting(since, h.Keys), h, d));
    events := Grow(w, duration, events, call, With(w, call, client, Checking(since), map[], None));
    events := Grow(w, duration, events, call, With(w, call, client, Waiting(since), map[], None));
    events := Grow(w, duration, events, call, With(inside, call, client, Entering(since), map[], None));
    events := Grow(w, duration, events, call, With(inside, call, client, Counting(since), map[], None));
  }

  lemma ReadsExpired(w: World, duration: Time, call: Id, client: Id, since: Time, h: Table, d: Option<Time>)
    requires forall c | c in h :: since > h[c]
    ensures Advance(With(w, call, client, Reading(since), h, d), duration, 1, call)
         == With(w, call, client, Deleting(since, h.Keys), h, d)
  {
    forall c | c in h ensures c in Expired(h, since) { assert since > h[c]; }
    assert Expired(h, since) == h.Keys;
  }

  lemma DeletesExpired(w: World, duration: Time, call: Id, client: Id, since: Time, h: Table, d: Option<Time>)
    ensures Advance(With(w, call, client, Deleting(since, h.Keys), h, d), duration, 1, call)
         == With(w, call, client, Checking(since), map[], None)
  {
    assert h - h.Keys == map[];
  }

  lemma ChecksEmpty(w: World, duration: Time, call: Id, client: Id, since: Time)
    ensures Advance(With(w, call, client, Checking(since), map[], None), duration, 1, call)
         == With(w, call, client, Waiting(since), map[], None)
  {
  }

  lemma CountsEmpty(w: World, duration: Time, call: Id, client: Id, since: Time)
    requires w.mutex.Some?
    ensures Advance(With(w, call, client, Entering(since), map[], None), duration, 1, call)
         == With(w, call, client, Counting(since), map[], None)
    ensures Advance(With(w, call, client, Counting(since), map[], None), duration, 1, call)
         == With(w, call, client, Writing(since), map[], None)
  {
  }

  // One more command, with a limit of one.
  lemma Grow(w: World, duration: Time, events: seq<Event>, call: Id, reached: World) returns (more: seq<Event>)
    requires Possible(w, duration, 1, events) && After(w, duration, 1, events) == reached
    requires Allowed(reached, Proceed(call))
    ensures Possible(w, duration, 1, more) && After(w, duration, 1, more) == Advance(reached, duration, 1, call)
  {
    more := events + [Proceed(call)];
    OneMore(w, duration, 1, events, Proceed(call));
  }

  // The bound is reached: two calls that count before either writes, because the mutex of
  // the first ran out.
  lemma ExpiredMutexExceedsLimit(clock: Time, duration: Time) returns (events: seq<Event>)
    ensures Possible(Start(clock), duration, 1, events)
    ensures var end := After(Start(clock), duration, 1, events); end.expirations == 1 && |end.hash| == 2
  {
    var w0 := Start(clock);
    events := UpToTheWrite(w0, duration, 1, 10);
    OneMore(w0, duration, 1, events, MutexExpires);
    events := events + [MutexExpires];
    var w1 := After(w0, duration, 1, events);
    var second := UpToTheWrite(w1, duration, 2, 20);
    Chained(w0, duration, 1, events, second);
    events := events + second;
    OneMore(w0, duration, 1, events, Proceed(1));
    events := events + [Proceed(1)];
    OneMore(w0, duration, 1, events, Proceed(2));
    events := events + [Proceed(2)];
    var end := After(w0, duration, 1, events);
    assert end.hash.Keys == {10, 20};
    assert |end.hash| == |end.hash.Keys|;
  }

  /** ---- A call left alone ---- */

  function CommandsLeft(p: Phase): nat {
    match p
    case Reading(_) => 8
    case Deleting(_, _) => 7
    case Checking(_) => 6
    case Waiting(_) => 5
    case Entering(_) => 4
    case Counting(_) => 3
    case Writing(_) => 2
    case Leaving(_) => 1
    case Finished(_) => 0
  }

  // The call issues its commands to the end, or until it would have to wait.
  function RunAlone(w: World, duration: Time, limit: int, call: Id): (end: World)
    requires call in w.calls
    ensures call in end.calls
    decreases CommandsLeft(w.calls[call].phase)
  {
    if Allowed(w, Proceed(call)) then RunAlone(Advance(w, duration, limit, call), duration, limit, call) else w
  }

  lemma RunsOn(w: World, duration: Time, limit: int, call: Id)
    requires Allowed(w, Proceed(call))
    ensures RunAlone(w, duration, limit, call) == RunAlone(Advance(w, duration, limit, call), duration, limit, call)
  {
  }

  function SweptDeadline(w: World): Option<Time> {
    if Sweep(w.hash, w.clock) == map[] then None else w.deadline
  }

  // Up to the mutex: the sweep, and the look for an entry of its own.
  lemma AloneToMutex(w: World, duration: Time, limit: int, call: Id, client: Id)
    requires call !in w.calls
    ensures RunAlone(Next(w, duration, limit, Begin(call, client)), duration, limit, call)
         == RunAlone(With(w, call, client,
                          if client in Sweep(w.hash, w.clock) then Finished(true) else Waiting(w.clock),
                          Sweep(w.hash, w.clock), SweptDeadline(w)), duration, limit, call)
  {
    var since, live := w.clock, Sweep(w.hash, w.clock);
    AloneSweeps(w, duration, limit, call, client, since);
    assert w.hash - Expired(w.hash, since) == live;
    AloneChecks(w, duration, limit, call, client, since, live, SweptDeadline(w));
    assert Next(w, duration, limit, Begin(call, client)) == With(w, call, client, Reading(since), w.hash, w.deadline);
  }

  lemma AloneChecks(w: World, duration: Time, limit: int, call: Id, client: Id, since: Time, h: Table, d: Option<Time>)
    ensures RunAlone(With(w, call, client, Checking(since), h, d), duration, limit, call)
         == RunAlone(With(w, call, client, if client in h then Finished(true) else Waiting(since), h, d), duration, limit, call)
  {
    var w3 := With(w, call, client, Checking(since), h, d);
    assert Advance(w3, duration, limit, call)
        == With(w, call, client, if client in h then Finished(true) else Waiting(since), h, d);
    RunsOn(w3, duration, limit, call);
  }

  lemma AloneSweeps(w: World, duration: Time, limit: int, call: Id, client: Id, since: Time)
    ensures RunAlone(With(w, call, client, Reading(since), w.hash, w.deadline), duration, limit, call)
         == RunAlone(With(w, call, client, Checking(since), Delete(w, Expired(w.hash, since)).hash,
                          Delete(w, Expired(w.hash, since)).deadline), duration, limit, call)
  {
    var rest := w.hash - Expired(w.hash, since);
    var w1 := With(w, call, client, Reading(since), w.hash, w.deadline);
    var w2 := With(w, call, client, Deleting(since, Expired(w.hash, since)), w.hash, w.deadline);
    assert Advance(w1, duration, limit, call) == w2;
    assert Advance(w2, duration, limit, call)
        == With(w, call, client, Checking(since), rest, if rest == map[] then None else w.deadline);
    RunsOn(w1, duration, limit, call);
    RunsOn(w2, duration, limit, call);
  }

  // From the mutex on: the count, and the entry if there is room.
  lemma AloneInSection(w: World, duration: Time, limit: int, call: Id, client: Id, live: Table, d: Option<Time>)
    requires w.mutex.None?
    ensures RunAlone(With(w, call, client, Waiting(w.clock), live, d), duration, limit, call)
         == With(w, call, client, Finished(|live| < limit),
                 if |live| < limit then live[client := w.clock + duration] else live,
                 if |live| < limit then Some(w.clock + duration) else d)
  {
    var inside := w.(mutex := Some(call));
    var w1 := With(w, call, client, Waiting(w.clock), live, d);
    assert Advance(w1, duration, limit, call) == With(inside, call, client, Entering(w.clock), live, d);
    RunsOn(w1, duration, limit, call);
    AloneEnters(inside, duration, limit, call, client, live, d);
    AloneCounts(inside, duration, limit, call, client, live, d);
    AloneLeaves(w, duration, limit, call, client, |live| < limit,
                if |live| < limit then live[client := w.clock + duration] else live,
                if |live| < limit then Some(w.clock + duration) else d);
  }

  lemma AloneEnters(w: World, duration: Time, limit: int, call: Id, client: Id, live: Table, d: Option<Time>)
    requires w.mutex.Some?
    ensures RunAlone(With(w, call, client, Entering(w.clock), live, d), duration, limit, call)
         == RunAlone(With(w, call, client, Counting(w.clock), live, d), duration, limit, call)
  {
    var w2 := With(w, call, client, Entering(w.clock), live, d);
    assert Advance(w2, duration, limit, call) == With(w, call, client, Counting(w.clock), live, d);
    RunsOn(w2, duration, limit, call);
  }

  lemma AloneCounts(w: World, duration: Time, limit: int, call: Id, client: Id, live: Table, d: Option<Time>)
    ensures RunAlone(With(w, call, client, Counting(w.clock), live, d), duration, limit, call)
         == RunAlone(With(w, call, client, Leaving(|live| < limit),
                          if |live| < limit then live[client := w.clock + duration] else live,
                          if |live| < limit then Some(w.clock + duration) else d), duration, limit, call)
  {
    var next := if |live| < limit then Writing(w.clock) else Leaving(false);
    var w2 := With(w, call, client, Counting(w.clock), live, d);
    assert Advance(w2, duration, limit, call) == With(w, call, client, next, live, d);
    RunsOn(w2, duration, limit, call);
    if |live| < limit { AloneWrites(w, duration, limit, call, client, live, d); }
  }

  lemma AloneWrites(w: World, duration: Time, limit: int, call: Id, client: Id, live: Table, d: Option<Time>)
    ensures RunAlone(With(w, call, client, Writing(w.clock), live, d), duration, limit, call)
         == RunAlone(With(w, call, client, Leaving(true), live[client := w.clock + duration], Some(w.clock + duration)),
                     duration, limit, call)
  {
    var w3 := With(w, call, client, Writing(w.clock), live, d);
    assert Advance(w3, duration, limit, call)
        == With(w, call, client, Leaving(true), live[client := w.clock + duration], Some(w.clock + duration));
    RunsOn(w3, duration, limit, call);
  }

  lemma AloneLeaves(w: World, duration: Time, limit: int, call: Id, client: Id, result: bool, hash: Table, d: Option<Time>)
    requires w.mutex.None?
    ensures RunAlone(With(w.(mutex := Some(call)), call, client, Leaving(result), hash, d), duration, limit, call)
         == With(w, call, client, Finished(result), hash, d)
  {
    var w4 := With(w.(mutex := Some(call)), call, client, Leaving(result), hash, d);
    assert Advance(w4, duration, limit, call) == With(w, call, client, Finished(result), hash, d);
    RunsOn(w4, duration, limit, call);
  }

  // Without interference the commands amount to one acquire of the coarse protocol, on the entries and
  // on the deadline of the hash.
  lemma AloneIsAcquire(w: World, duration: Time, limit: int, call: Id, client: Id)
    requires call !in w.calls && w.mutex.None?
    ensures RunAlone(Next(w, duration, limit, Begin(call, client)), duration, limit, call)
         == With(w, call, client,
                 Finished(Acquire(w.hash, w.clock, duration, client, Finite(limit), true).granted),
                 Acquire(w.hash, w.clock, duration, client, Finite(limit), true).table,
                 LockStore.LeaseAfter(w.hash, w.deadline, w.clock, duration, client, Finite(limit), true))
  {
    AloneToMutex(w, duration, limit, call, client);
    AloneInSection(w, duration, limit, call, client, Sweep(w.hash, w.clock), SweptDeadline(w));
  }

  /** ---- When a granted entry survives ---- */

  function Since(p: Phase): Option<Time> {
    match p
    case Reading(since) => Some(since)
    case Deleting(since, _) => Some(since)
    case Checking(since) => Some(since)
    case Waiting(since) => Some(since)
    case Entering(since) => Some(since)
    case Counting(since) => Some(since)
    case Writing(since) => Some(since)
    case _ => None
  }

  predicate Lists(w: World, call: Id, client: Id) {
    call in w.calls && w.calls[call].phase.Deleting? && client in w.calls[call].phase.expired
  }

  // An entry is lost exactly when a call deletes a list with its client in it, or when the whole hash
  // is dropped at its deadline.
  lemma EntryIsLostIff(w: World, duration: Time, limit: int, e: Event, client: Id)
    requires Allowed(w, e) && client in w.hash
    ensures client !in Next(w, duration, limit, e).hash <==>
              (e.Proceed? && Lists(w, e.call, client)) || (e.Tick? && Lapses(w, w.clock + e.elapsed))
  {
  }

  // The call writes its entry and leaves.
  lemma WritesAndLeaves(w: World, duration: Time, call: Id, client: Id) returns (events: seq<Event>)
    requires w.mutex.None?
    ensures var start := With(w.(mutex := Some(call)), call, client, Writing(w.clock), map[], None);
            && Possible(start, duration, 1, events)
            && After(start, duration, 1, events)
               == With(w, call, client, Finished(true), map[client := w.clock + duration], Some(w.clock + duration))
  {
    var inside, h, d := w.(mutex := Some(call)), map[client := w.clock + duration], Some(w.clock + duration);
    var start := With(inside, call, client, Writing(w.clock), map[], None);
    assert map[][client := w.clock + duration] == h;
    assert Advance(start, duration, 1, call) == With(inside, call, client, Leaving(true), h, d);
    events := Grow(start, duration, [], call, start);
    assert Advance(With(inside, call, client, Leaving(true), h, d), duration, 1, call)
        == With(w, call, client, Finished(true), h, d);
    events := Grow(start, duration, events, call, With(inside, call, client, Leaving(true), h, d));
  }

  lemma Acquires(w: World, duration: Time, call: Id, client: Id) returns (events: seq<Event>)
    requires call !in w.calls && w.mutex.None? && forall c | c in w.hash :: w.clock > w.hash[c]
    ensures Possible(w, duration, 1, events)
    ensures After(w, duration, 1, events)
         == With(w, call, client, Finished(true), map[client := w.clock + duration], Some(w.clock + duration))
  {
    var first := UpToTheWrite(w, duration, call, client);
    var second := WritesAndLeaves(w, duration, call, client);
    events := first + second;
    Chained(w, duration, 1, first, second);
  }

  // A call that has read one expired entry, of client 10.
  lemma ReadsStale(w: World, duration: Time, expiration: Time) returns (events: seq<Event>)
    requires 2 !in w.calls && w.hash == map[10 := expiration] && w.clock > expiration
    ensures Possible(w, duration, 1, events)
    ensures After(w, duration, 1, events) == With(w, 2, 20, Deleting(w.clock, {10}), w.hash, w.deadline)
  {
    events := [Begin(2, 20)];
    One(w, duration, 1, Begin(2, 20));
    ReadsExpired(w, duration, 2, 20, w.clock, w.hash, w.deadline);
    assert w.hash.Keys == {10};
    events := Grow(w, duration, events, 2, With(w, 2, 20, Reading(w.clock), w.hash, w.deadline));
  }

  // Client 10 takes the lock, releases it, and six seconds later its expired entry is still there.
  lemma LeavesExpiredEntry(clock: Time, duration: Time) returns (events: seq<Event>)
    requires duration > 6.0
    ensures Possible(Start(clock), duration, 1, events)
    ensures After(Start(clock), duration, 1, events)
         == With(Start(clock).(clock := clock + 6.0), 1, 10, Finished(true), map[10 := clock + 5.0], Some(clock + duration))
  {
    var w0 := Start(clock);
    events := Acquires(w0, duration, 1, 10);
    OneMore(w0, duration, 1, events, ReleaseHeld(10));
    events := events + [ReleaseHeld(10)];
    OneMore(w0, duration, 1, events, Tick(6.0));
    events := events + [Tick(6.0)];
    assert map[10 := clock + duration][10 := clock + 5.0] == map[10 := clock + 5.0];
  }

  // A stale list can take a new entry along: client 10 is told that it has the lock and has no entry.
  lemma StaleDeleteLosesGrant(clock: Time, duration: Time) returns (events: seq<Event>)
    requires duration > 6.0
    ensures Possible(Start(clock), duration, 1, events)
    ensures var end := After(Start(clock), duration, 1, events);
            3 in end.calls && end.calls[3] == Call(10, Finished(true)) && end.hash == map[] && end.expirations == 0
  {
    var w0 := Start(clock);
    events := LeavesExpiredEntry(clock, duration);
    var w1 := After(w0, duration, 1, events);
    var stale := ReadsStale(w1, duration, clock + 5.0);
    Chained(w0, duration, 1, events, stale);
    events := events + stale;
    var w2 := After(w0, duration, 1, events);
    var again := Acquires(w2, duration, 3, 10);
    Chained(w0, duration, 1, events, again);
    events := events + again;
    OneMore(w0, duration, 1, events, Proceed(2));
    events := events + [Proceed(2)];
  }

  // The calls of the world began no later than now.
  ghost predicate Timely(w: World) {
    forall c | c in w.calls :: Since(w.calls[c].phase).Some? ==> Since(w.calls[c].phase).value <= w.clock
  }

  // The client's entry lasts until `end` and so does the hash, no call is about to delete the entry,
  // and calls of the client that are under way will not shorten it.
  ghost predicate Lasting(w: World, duration: Time, client: Id, end: Time) {
    && client in w.hash && w.hash[client] >= end && !Lapses(w, end)
    && (forall c :: !Lists(w, c, client))
    && forall c | c in w.calls && w.calls[c].client == client ::
         Since(w.calls[c].phase).Some? ==> Since(w.calls[c].phase).value + duration >= end
  }

  // A call that writes its entry gives the hash a deadline that is late enough for it.
  lemma WrittenEntryLasts(w: World, duration: Time, limit: int, call: Id)
    requires Timely(w) && Allowed(w, Proceed(call)) && w.calls[call].phase.Writing?
    requires forall c :: !Lists(w, c, w.calls[call].client)
    requires forall c | c in w.calls && w.calls[c].client == w.calls[call].client :: Since(w.calls[c].phase).Some? ==>
               Since(w.calls[c].phase).value >= w.calls[call].phase.since
    ensures Lasting(Advance(w, duration, limit, call), duration, w.calls[call].client, w.calls[call].phase.since + duration)
  {
    var next := Advance(w, duration, limit, call);
    forall c ensures !Lists(next, c, w.calls[call].client) { assert !Lists(w, c, w.calls[call].client); }
  }

  lemma EventKeepsTimely(w: World, duration: Time, limit: int, e: Event)
    requires Timely(w) && Allowed(w, e)
    ensures Timely(Next(w, duration, limit, e))
  {
  }

  lemma EventKeepsLasting(w: World, duration: Time, limit: int, e: Event, client: Id, end: Time)
    requires Timely(w) && Lasting(w, duration, client, end) && Allowed(w, e) && e != ReleaseHeld(client)
    requires w.clock <= end <= w.clock + duration && Next(w, duration, limit, e).clock <= end
    ensures Lasting(Next(w, duration, limit, e), duration, client, end)
  {
    var w1 := Next(w, duration, limit, e);
    EntryIsLostIff(w, duration, limit, e, client);
    forall c ensures !Lists(w1, c, client) { assert !Lists(w, c, client); }
  }

  lemma {:induction false} RunKeepsLasting(w: World, duration: Time, limit: int, events: seq<Event>, client: Id, end: Time)
    requires Timely(w) && Lasting(w, duration, client, end) && w.clock <= end <= w.clock + duration
    requires Possible(w, duration, limit, events) && ReleaseHeld(client) !in events
    requires After(w, duration, limit, events).clock <= end
    ensures var w1 := After(w, duration, limit, events); client in w1.hash && w1.hash[client] >= end
    decreases |events|
  {
    if events != [] {
      var next := Next(w, duration, limit, events[0]);
      ClockRuns(next, duration, limit, events[1..]);
      EventKeepsTimely(w, duration, limit, events[0]);
      EventKeepsLasting(w, duration, limit, events[0], client, end);
      RunKeepsLasting(next, duration, limit, events[1..], client, end);
    }
  }

  lemma {:induction false} ClockRuns(w: World, duration: Time, limit: int, events: seq<Event>)
    requires Possible(w, duration, limit, events)
    ensures After(w, duration, limit, events).clock >= w.clock
    decreases |events|
  {
    if events != [] { ClockRuns(Next(w, duration, limit, events[0]), duration, limit, events[1..]); }
  }

  lemma {:induction false} RunKeepsTimely(w: World, duration: Time, limit: int, events: seq<Event>)
    requires Timely(w) && Possible(w, duration, limit, events)
    ensures Timely(After(w, duration, limit, events))
    decreases |events|
  {
    if events != [] {
      EventKeepsTimely(w, duration, limit, events[0]);
      RunKeepsTimely(Next(w, duration, limit, events[0]), duration, limit, events[1..]);
    }
  }

  // From any reachable state, an entry that no call is about to delete is there until its time,
  // unless its client releases it.
  lemma EntrySurvives(clock: Time, duration: Time, limit: int, before: seq<Event>, after: seq<Event>, client: Id, end: Time)
    requires Possible(Start(clock), duration, limit, before)
    requires var w := After(Start(clock), duration, limit, before);
             && Lasting(w, duration, client, end) && w.clock <= end <= w.clock + duration
             && Possible(w, duration, limit, after) && ReleaseHeld(client) !in after
             && After(w, duration, limit, after).clock <= end
    ensures var w1 := After(After(Start(clock), duration, limit, before), duration, limit, after);
            client in w1.hash && w1.hash[client] >= end
  {
    RunKeepsTimely(Start(clock), duration, limit, before);
    RunKeepsLasting(After(Start(clock), duration, limit, before), duration, limit, after, client, end);
  }

  /** ---- What the answer of a call means ---- */

  // The world after the first k events.
  ghost function At(w: World, duration: Time, limit: int, events: seq<Event>, k: nat): World
    requires Possible(w, duration, limit, events) && k <= |events|
    decreases k
  {
    if k == 0 then w else At(Next(w, duration, limit, events[0]), duration, limit, events[1..], k - 1)
  }

  // The call has its answer.
  predicate Returns(w: World, call: Id, result: bool) {
    call in w.calls && (w.calls[call].phase == Leaving(result) || w.calls[call].phase == Finished(result))
  }

  // The call is under way or over, and its client has an entry.
  predicate HasEntry(w: World, call: Id, client: Id) {
    call in w.calls && w.calls[call].client == client && client in w.hash
  }

  lemma AnswersTrue(w: World, duration: Time, limit: int, e: Event, call: Id)
    requires Allowed(w, e) && !Returns(w, call, true) && Returns(Next(w, duration, limit, e), call, true)
    ensures var next := Next(w, duration, limit, e);
            HasEntry(w, call, next.calls[call].client) || HasEntry(next, call, next.calls[call].client)
  {
  }

  lemma AtNext(w: World, duration: Time, limit: int, events: seq<Event>, k: nat)
    requires Possible(w, duration, limit, events) && 0 < k <= |events|
    ensures At(w, duration, limit, events, k) == At(Next(w, duration, limit, events[0]), duration, limit, events[1..], k - 1)
  {
  }

  lemma {:induction false} CallStays(w: World, duration: Time, limit: int, events: seq<Event>, call: Id)
    requires Possible(w, duration, limit, events) && call in w.calls
    ensures var end := After(w, duration, limit, events);
            && call in end.calls && end.calls[call].client == w.calls[call].client
            && (Returns(w, call, true) ==> Returns(end, call, true))
    decreases |events|
  {
    if events != [] { CallStays(Next(w, duration, limit, events[0]), duration, limit, events[1..], call); }
  }

  lemma {:induction false} TrueHadEntry(w: World, duration: Time, limit: int, events: seq<Event>, call: Id) returns (k: nat)
    requires Possible(w, duration, limit, events)
    requires !Returns(w, call, true) && Returns(After(w, duration, limit, events), call, true)
    ensures k <= |events|
    ensures HasEntry(At(w, duration, limit, events, k), call, After(w, duration, limit, events).calls[call].client)
    decreases |events|
  {
    var next := Next(w, duration, limit, events[0]);
    if Returns(next, call, true) {
      AnswersTrue(w, duration, limit, events[0], call);
      CallStays(next, duration, limit, events[1..], call);
      assert At(next, duration, limit, events[1..], 0) == next;
      k := if HasEntry(w, call, next.calls[call].client) then 0 else 1;
    } else {
      k := TrueHadEntry(next, duration, limit, events[1..], call);
      k := k + 1;
    }
  }

  // However the calls interleave, a call that returns True had an entry of its client in the hash at some
  // instant since it began.
  lemma GrantedHadEntry(clock: Time, duration: Time, limit: int, events: seq<Event>, call: Id) returns (k: nat)
    requires Possible(Start(clock), duration, limit, events)
    requires Returns(After(Start(clock), duration, limit, events), call, true)
    ensures k <= |events|
    ensures HasEntry(At(Start(clock), duration, limit, events, k), call,
                     After(Start(clock), duration, limit, events).calls[call].client)
  {
    k := TrueHadEntry(Start(clock), duration, limit, events, call);
  }

  predicate GainsNothing(w: World, next: World) {
    forall c | c in next.hash :: c in w.hash && next.hash[c] == w.hash[c]
  }

  lemma {:induction false} FalseWroteNothing(w: World, duration: Time, limit: int, events: seq<Event>, call: Id, k: nat)
    requires Possible(w, duration, limit, events) && Returns(After(w, duration, limit, events), call, false)
    requires k < |events| && events[k] == Proceed(call)
    ensures GainsNothing(At(w, duration, limit, events, k), At(w, duration, limit, events, k + 1))
    decreases |events|
  {
    var next := Next(w, duration, limit, events[0]);
    if k == 0 {
      assert At(next, duration, limit, events[1..], 0) == next;
      CallStays(next, duration, limit, events[1..], call);
    } else {
      FalseWroteNothing(next, duration, limit, events[1..], call, k - 1);
    }
  }

  // A call that returns False has written nothing, at none of its commands.
  lemma RefusedWroteNothing(clock: Time, duration: Time, limit: int, events: seq<Event>, call: Id)
    requires Possible(Start(clock), duration, limit, events)
    requires Returns(After(Start(clock), duration, limit, events), call, false)
    ensures forall k: nat | k < |events| && events[k] == Proceed(call) ::
              GainsNothing(At(Start(clock), duration, limit, events, k), At(Start(clock), duration, limit, events, k + 1))
  {
    forall k: nat | k < |events| && events[k] == Proceed(call)
      ensures GainsNothing(At(Start(clock), duration, limit, events, k), At(Start(clock), duration, limit, events, k + 1))
    {
      FalseWroteNothing(Start(clock), duration, limit, events, call, k);
    }
  }

  // The call has counted the entries, or is about to.
  predicate Counts(w: World, call: Id) {
    call in w.calls && (w.calls[call].phase.Counting? || w.calls[call].phase.Writing?)
  }

  // No call counts or writes without having looked for its mutex inside the section and found one.
  lemma {:induction false} CountsUnderMutex(w: World, duration: Time, limit: int, events: seq<Event>, call: Id) returns (k: nat)
    requires Possible(w, duration, limit, events)
    requires !Counts(w, call) && Counts(After(w, duration, limit, events), call)
    ensures k < |events| && events[k] == Proceed(call)
    ensures var at := At(w, duration, limit, events, k);
            call in at.calls && at.calls[call].phase.Entering? && at.mutex.Some?
    decreases |events|
  {
    var next := Next(w, duration, limit, events[0]);
    if Counts(next, call) {
      k := 0;
    } else {
      k := CountsUnderMutex(next, duration, limit, events[1..], call);
      k := k + 1;
    }
  }

  // The call began at `since`, as far as it still uses that.
  predicate BeganAt(w: World, call: Id, client: Id, since: Time) {
    && call in w.calls && w.calls[call].client == client
    && (Since(w.calls[call].phase).Some? ==> Since(w.calls[call].phase).value == since)
  }

  predicate AddsOnly(w: World, next: World, client: Id, expiration: Time) {
    forall c | c in next.hash :: (c in w.hash && next.hash[c] == w.hash[c]) || (c == client && next.hash[c] == expiration)
  }

  // What a command of the call adds to the hash is its own entry, which expires one duration after it began.
  lemma {:induction false} WritesFromItsStart(w: World, duration: Time, limit: int, events: seq<Event>, call: Id,
                                              client: Id, since: Time, k: nat)
    requires Possible(w, duration, limit, events) && BeganAt(w, call, client, since)
    requires k < |events| && events[k] == Proceed(call)
    ensures AddsOnly(At(w, duration, limit, events, k), At(w, duration, limit, events, k + 1), client, since + duration)
    decreases |events|
  {
    var next := Next(w, duration, limit, events[0]);
    if k == 0 {
      assert At(next, duration, limit, events[1..], 0) == next;
    } else {
      WritesFromItsStart(next, duration, limit, events[1..], call, client, since, k - 1);
      AtNext(w, duration, limit, events, k + 1);
    }
  }

  // However long a call has waited for the mutex, the entry it writes expires one duration after the call began.
  lemma {:induction false} EntryIsDatedFromStart(w: World, duration: Time, limit: int, events: seq<Event>, call: Id,
                                                 client: Id, j: nat, k: nat)
    requires Possible(w, duration, limit, events)
    requires j < k < |events| && events[j] == Begin(call, client) && events[k] == Proceed(call)
    ensures AddsOnly(At(w, duration, limit, events, k), At(w, duration, limit, events, k + 1), client,
                     At(w, duration, limit, events, j).clock + duration)
    decreases |events|
  {
    var next := Next(w, duration, limit, events[0]);
    if j == 0 {
      WritesFromItsStart(next, duration, limit, events[1..], call, client, w.clock, k - 1);
      AtNext(w, duration, limit, events, k + 1);
    } else {
      EntryIsDatedFromStart(next, duration, limit, events[1..], call, client, j - 1, k - 1);
      AtNext(w, duration, limit, events, k + 1);
    }
  }

  // What makes a call return False: it waited too long, found the mutex gone, or found the hash full.
  ghost predicate Fails(w: World, limit: int, e: Event, call: Id) {
    e == GiveUp(call) || (e == Proceed(call) && (w.mutex.None? || |w.hash| >= limit))
  }

  lemma {:induction false} FalseHadReason(w: World, duration: Time, limit: int, events: seq<Event>, call: Id) returns (k: nat)
    requires Possible(w, duration, limit, events)
    requires !Returns(w, call, false) && Returns(After(w, duration, limit, events), call, false)
    ensures k < |events| && Fails(At(w, duration, limit, events, k), limit, events[k], call)
    decreases |events|
  {
    var next := Next(w, duration, limit, events[0]);
    if Returns(next, call, false) {
      k := 0;
    } else {
      k := FalseHadReason(next, duration, limit, events[1..], call);
      k := k + 1;
    }
  }

  lemma RefusedHadReason(clock: Time, duration: Time, limit: int, events: seq<Event>, call: Id) returns (k: nat)
    requires Possible(Start(clock), duration, limit, events)
    requires Returns(After(Start(clock), duration, limit, events), call, false)
    ensures k < |events| && Fails(At(Start(clock), duration, limit, events, k), limit, events[k], call)
  {
    k := FalseHadReason(Start(clock), duration, limit, events, call);
  }
}
