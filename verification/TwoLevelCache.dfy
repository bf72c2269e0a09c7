/**
 The two-level cache for one key: any number of callers, interleaved at every access to Redis,
 with expiry of both levels and of the mutex, and with invalidation at any moment.
 */
module TwoLevelCache {
  import opened Options

  type Time = real
  type Caller = int

  // What a computation returned, with the moment at which it was computed.
  datatype Value = Value(data: int, computed: Time)

  datatype Level = L1 | L2

  datatype Entry = Entry(value: Value, stored: Time, until: Time)

  // `truthy` is Python's truth of a value; `disabled` is the environment switch.
  datatype Config = Config(timeout: Time, timeoutL2: Time, timeoutMutex: Time, disabled: bool, truthy: int -> bool) {
    function Lasts(level: Level): Time {
      match level
      case L1 => timeout
      case L2 => timeoutL2
    }
  }

  datatype Phase =
    | ReadL1
    | ReadL2
    | TryMutex(found: Option<Entry>)
    | ComputeLocked(found: Option<Entry>, lease: Time)
    | StoreL1Locked(found: Option<Entry>, lease: Time, value: Value)
    | StoreL2Locked(found: Option<Entry>, lease: Time, value: Value)
    | Unlock(found: Option<Entry>, lease: Time, value: Value)
    | Poll(total: Time)
    | Compute
    | StoreL1(value: Value)
    | StoreL2(value: Value)
    | Done(value: Value)

  datatype Call = Call(start: Time, phase: Phase)

  datatype Stored = Stored(level: Level, value: Value, at: Time)

  // `stores` remembers every value stored, where and when.
  datatype State = State(now: Time, l1: Option<Entry>, l2: Option<Entry>, mutex: Option<(Caller, Time)>,
                         calls: map<Caller, Call>, stores: set<Stored>)

  function Live(e: Option<Entry>, now: Time): Option<Entry> {
    if e.Some? && e.value.until > now then e else None
  }

  predicate Free(s: State) {
    s.mutex.None? || s.mutex.value.1 <= s.now
  }

  function SetL1(cfg: Config, s: State, value: Value): State {
    s.(l1 := Some(Entry(value, s.now, s.now + cfg.timeout)), stores := s.stores + {Stored(L1, value, s.now)})
  }

  function SetL2(cfg: Config, s: State, value: Value): State {
    s.(l2 := Some(Entry(value, s.now, s.now + cfg.timeoutL2)), stores := s.stores + {Stored(L2, value, s.now)})
  }

  /** ---- Steps ---- */

  // When the caller did not compute a true value itself: the second-level value seen before, or
  // waiting for one.
  function Fallback(found: Option<Entry>): Phase {
    if found.Some? then Done(found.value.value) else Poll(0.0)
  }

  // Where a caller goes with one access to Redis, or at the end of its computation with result `data`.
  function NextPhase(cfg: Config, s: State, phase: Phase, data: int): Phase
    requires !phase.Done?
  {
    match phase
    case ReadL1 =>
      var seen := Live(s.l1, s.now);
      if seen.Some? then Done(seen.value.value) else ReadL2
    case ReadL2 => TryMutex(Live(s.l2, s.now))
    case TryMutex(found) =>
      if Free(s) then ComputeLocked(found, s.now + cfg.timeoutMutex) else Fallback(found)
    case ComputeLocked(found, lease) => StoreL1Locked(found, lease, Value(data, s.now))
    case StoreL1Locked(found, lease, value) => StoreL2Locked(found, lease, value)
    case StoreL2Locked(found, lease, value) => Unlock(found, lease, value)
    case Unlock(found, lease, value) => if cfg.truthy(value.data) then Done(value) else Fallback(found)
    case Poll(total) =>
      var seen := Live(s.l2, s.now);
      if total >= cfg.timeoutMutex then Compute
      else if seen.Some? then Done(seen.value.value)
      else Poll(total + 0.1)
    case Compute => StoreL1(Value(data, s.now))
    case StoreL1(value) => StoreL2(value)
    case StoreL2(value) => Done(value)
  }

  // What it writes. Releasing a mutex that has passed to another caller changes nothing.
  function Write(cfg: Config, s: State, c: Caller, phase: Phase): State {
    match phase
    case TryMutex(_) => if Free(s) then s.(mutex := Some((c, s.now + cfg.timeoutMutex))) else s
    case StoreL1Locked(_, _, value) => SetL1(cfg, s, value)
    case StoreL2Locked(_, _, value) => SetL2(cfg, s, value)
    case Unlock(_, lease, _) => if s.mutex == Some((c, lease)) then s.(mutex := None) else s
    case StoreL1(value) => SetL1(cfg, s, value)
    case StoreL2(value) => SetL2(cfg, s, value)
    case _ => s
  }

  function Advance(cfg: Config, s: State, c: Caller, data: int): State
    requires c in s.calls && !s.calls[c].phase.Done?
  {
    var call := s.calls[c];
    var next := call.(phase := NextPhase(cfg, s, call.phase, data));
    Write(cfg, s, c, call.phase).(calls := s.calls[c := next])
  }

  datatype Step =
    | Begin(caller: Caller)
    | Move(caller: Caller, data: int)
    | Invalidate(l1: bool, l2: bool)
    | Tick(elapsed: Time)

  predicate Enabled(s: State, step: Step) {
    match step
    case Begin(c) => c in s.calls ==> s.calls[c].phase.Done?
    case Move(c, _) => c in s.calls && !s.calls[c].phase.Done?
    case Invalidate(_, _) => true
    case Tick(elapsed) => elapsed >= 0.0
  }

  function Next(cfg: Config, s: State, step: Step): State
    requires Enabled(s, step)
  {
    match step
    case Begin(c) => s.(calls := s.calls[c := Call(s.now, if cfg.disabled then Compute else ReadL1)])
    case Move(c, data) => Advance(cfg, s, c, data)
    case Invalidate(l1, l2) => s.(l1 := if l1 then None else s.l1, l2 := if l2 then None else s.l2)
    case Tick(elapsed) => s.(now := s.now + elapsed)
  }

  predicate Possible(cfg: Config, s: State, steps: seq<Step>)
    decreases |steps|
  {
    steps == [] || (Enabled(s, steps[0]) && Possible(cfg, Next(cfg, s, steps[0]), steps[1..]))
  }

  function After(cfg: Config, s: State, steps: seq<Step>): State
    requires Possible(cfg, s, steps)
    decreases |steps|
  {
    if steps == [] then s else After(cfg, Next(cfg, s, steps[0]), steps[1..])
  }

  predicate Initial(s: State) {
    s.l1 == None && s.l2 == None && s.mutex == None && s.calls == map[] && s.stores == {}
  }

  /** ---- Freshness ---- */

  predicate Recorded(cfg: Config, s: State, level: Level, e: Option<Entry>) {
    e.Some? ==>
      && Stored(level, e.value.value, e.value.stored) in s.stores
      && e.value.stored <= s.now && e.value.until == e.value.stored + cfg.Lasts(level)
  }

  // The entry was stored less than its level's timeout before the call began.
  predicate Recent(cfg: Config, s: State, start: Time, level: Level, e: Option<Entry>) {
    e.Some? ==>
      Stored(level, e.value.value, e.value.stored) in s.stores && e.value.stored > start - cfg.Lasts(level)
  }

  predicate ComputedInCall(s: State, start: Time, v: Value) {
    start <= v.computed <= s.now
  }

  ghost predicate StoredSince(s: State, start: Time, level: Level, v: Value) {
    exists t :: t >= start && Stored(level, v, t) in s.stores
  }

  ghost predicate FromCache(cfg: Config, s: State, start: Time, v: Value) {
    exists level, t :: t > start - cfg.Lasts(level) && Stored(level, v, t) in s.stores
  }

  // The value was computed during the call, which also stored it at both levels, or was stored
  // recently enough before the call began.
  ghost predicate Fresh(cfg: Config, s: State, start: Time, v: Value) {
    || (ComputedInCall(s, start, v) && StoredSince(s, start, L1, v) && StoredSince(s, start, L2, v))
    || FromCache(cfg, s, start, v)
  }

  // The second-level entry that a caller has seen and may fall back on.
  function Found(phase: Phase): Option<Entry> {
    match phase
    case TryMutex(found) => found
    case ComputeLocked(found, _) => found
    case StoreL1Locked(found, _, _) => found
    case StoreL2Locked(found, _, _) => found
    case Unlock(found, _, _) => found
    case _ => None
  }

  // What a caller has computed and not yet returned.
  function Computed(phase: Phase): Option<Value> {
    match phase
    case StoreL1Locked(_, _, value) => Some(value)
    case StoreL2Locked(_, _, value) => Some(value)
    case Unlock(_, _, value) => Some(value)
    case StoreL1(value) => Some(value)
    case StoreL2(value) => Some(value)
    case _ => None
  }

  // Where a caller has stored what it computed.
  ghost predicate StoredSoFar(s: State, start: Time, phase: Phase) {
    match phase
    case StoreL2Locked(_, _, value) => StoredSince(s, start, L1, value)
    case Unlock(_, _, value) => StoredSince(s, start, L1, value) && StoredSince(s, start, L2, value)
    case StoreL2(value) => StoredSince(s, start, L1, value)
    case _ => true
  }

  ghost predicate CallInvariant(cfg: Config, s: State, call: Call) {
    && call.start <= s.now
    && Recent(cfg, s, call.start, L2, Found(call.phase))
    && (Computed(call.phase).Some? ==> ComputedInCall(s, call.start, Computed(call.phase).value))
    && StoredSoFar(s, call.start, call.phase)
    && (call.phase.Done? ==> Fresh(cfg, s, call.start, call.phase.value))
  }

  ghost predicate FreshInvariant(cfg: Config, s: State) {
    && Recorded(cfg, s, L1, s.l1)
    && Recorded(cfg, s, L2, s.l2)
    && forall c | c in s.calls :: CallInvariant(cfg, s, s.calls[c])
  }

  lemma StoredStays(s: State, s1: State, start: Time, level: Level, v: Value)
    requires s.stores <= s1.stores && StoredSince(s, start, level, v)
    ensures StoredSince(s1, start, level, v)
  {
    var t :| t >= start && Stored(level, v, t) in s.stores;
    assert Stored(level, v, t) in s1.stores;
  }

  lemma FreshStays(cfg: Config, s: State, s1: State, start: Time, v: Value)
    requires s.now <= s1.now && s.stores <= s1.stores && Fresh(cfg, s, start, v)
    ensures Fresh(cfg, s1, start, v)
  {
    if FromCache(cfg, s, start, v) {
      var level, t :| t > start - cfg.Lasts(level) && Stored(level, v, t) in s.stores;
      assert Stored(level, v, t) in s1.stores;
    } else {
      StoredStays(s, s1, start, L1, v);
      StoredStays(s, s1, start, L2, v);
    }
  }

  // Time passing and further stores leave what is known of a call.
  lemma CallInvariantStays(cfg: Config, s: State, s1: State, call: Call)
    requires CallInvariant(cfg, s, call) && s.now <= s1.now && s.stores <= s1.stores
    ensures CallInvariant(cfg, s1, call)
  {
    match call.phase
    case StoreL2Locked(_, _, v) => StoredStays(s, s1, call.start, L1, v);
    case Unlock(_, _, v) =>
      StoredStays(s, s1, call.start, L1, v);
      StoredStays(s, s1, call.start, L2, v);
    case StoreL2(v) => StoredStays(s, s1, call.start, L1, v);
    case Done(v) => FreshStays(cfg, s, s1, call.start, v);
    case _ =>
  }

  lemma RecentIsFresh(cfg: Config, s: State, start: Time, level: Level, e: Entry)
    requires Recent(cfg, s, start, level, Some(e))
    ensures Fresh(cfg, s, start, e.value)
  {
  }

  lemma FallbackKeepsCall(cfg: Config, s: State, start: Time, found: Option<Entry>)
    requires start <= s.now && Recent(cfg, s, start, L2, found)
    ensures CallInvariant(cfg, s, Call(start, Fallback(found)))
  {
    if found.Some? { RecentIsFresh(cfg, s, start, L2, found.value); }
  }

  // A live entry of either level may be returned.
  lemma LiveMayBeReturned(cfg: Config, s: State, start: Time, level: Level, e: Option<Entry>)
    requires Recorded(cfg, s, level, e) && start <= s.now
    ensures Recent(cfg, s, start, level, Live(e, s.now))
    ensures Live(e, s.now).Some? ==> CallInvariant(cfg, s, Call(start, Done(Live(e, s.now).value.value)))
  {
    if Live(e, s.now).Some? { RecentIsFresh(cfg, s, start, level, e.value); }
  }

  // A caller that computes or stores.
  predicate Working(phase: Phase) {
    || phase.ComputeLocked? || phase.StoreL1Locked? || phase.StoreL2Locked?
    || phase.Compute? || phase.StoreL1? || phase.StoreL2?
  }

  lemma WorkKeepsCall(cfg: Config, s: State, c: Caller, call: Call, data: int)
    requires CallInvariant(cfg, s, call) && Working(call.phase)
    ensures CallInvariant(cfg, Write(cfg, s, c, call.phase), call.(phase := NextPhase(cfg, s, call.phase, data)))
  {
    var s1 := Write(cfg, s, c, call.phase);
    CallInvariantStays(cfg, s, s1, call);
    match call.phase
    case StoreL1Locked(_, _, v) => assert Stored(L1, v, s.now) in s1.stores;
    case StoreL2Locked(_, _, v) => assert Stored(L2, v, s.now) in s1.stores;
    case StoreL1(v) => assert Stored(L1, v, s.now) in s1.stores;
    case StoreL2(v) => assert Stored(L2, v, s.now) in s1.stores;
    case _ =>
  }

  lemma ReadKeepsCall(cfg: Config, s: State, call: Call, data: int)
    requires CallInvariant(cfg, s, call) && !Working(call.phase) && !call.phase.Done?
    requires Recorded(cfg, s, L1, s.l1) && Recorded(cfg, s, L2, s.l2)
    ensures CallInvariant(cfg, s, call.(phase := NextPhase(cfg, s, call.phase, data)))
  {
    FallbackKeepsCall(cfg, s, call.start, Found(call.phase));
    LiveMayBeReturned(cfg, s, call.start, L1, s.l1);
    LiveMayBeReturned(cfg, s, call.start, L2, s.l2);
  }

  lemma MoveKeepsCall(cfg: Config, s: State, c: Caller, call: Call, data: int)
    requires CallInvariant(cfg, s, call) && !call.phase.Done?
    requires Recorded(cfg, s, L1, s.l1) && Recorded(cfg, s, L2, s.l2)
    ensures CallInvariant(cfg, Write(cfg, s, c, call.phase), call.(phase := NextPhase(cfg, s, call.phase, data)))
  {
    if Working(call.phase) {
      WorkKeepsCall(cfg, s, c, call, data);
    } else {
      var next := call.(phase := NextPhase(cfg, s, call.phase, data));
      ReadKeepsCall(cfg, s, call, data);
      CallInvariantStays(cfg, s, Write(cfg, s, c, call.phase), next);
    }
  }

  // What a move leaves alone.
  lemma MoveEffect(cfg: Config, s: State, c: Caller, data: int)
    requires Enabled(s, Move(c, data))
    requires Recorded(cfg, s, L1, s.l1) && Recorded(cfg, s, L2, s.l2)
    ensures var s1 := Advance(cfg, s, c, data);
      && s1.now == s.now && s.stores <= s1.stores
      && s1.calls == s.calls[c := s1.calls[c]]
      && Recorded(cfg, s1, L1, s1.l1) && Recorded(cfg, s1, L2, s1.l2)
  {
  }

  lemma StepKeepsFresh(cfg: Config, s: State, step: Step)
    requires FreshInvariant(cfg, s) && Enabled(s, step)
    ensures FreshInvariant(cfg, Next(cfg, s, step))
  {
    var s1 := Next(cfg, s, step);
    if step.Move? {
      var c := step.caller;
      MoveEffect(cfg, s, c, step.data);
      MoveKeepsCall(cfg, s, c, s.calls[c], step.data);
      CallInvariantStays(cfg, Write(cfg, s, c, s.calls[c].phase), s1, s1.calls[c]);
    }
    forall c | c in s1.calls
      ensures CallInvariant(cfg, s1, s1.calls[c])
    {
      if c in s.calls && s1.calls[c] == s.calls[c] { CallInvariantStays(cfg, s, s1, s.calls[c]); }
    }
  }

  lemma {:induction false} RunKeepsFresh(cfg: Config, s: State, steps: seq<Step>)
    requires FreshInvariant(cfg, s) && Possible(cfg, s, steps)
    ensures FreshInvariant(cfg, After(cfg, s, steps))
    decreases |steps|
  {
    if steps != [] {
      StepKeepsFresh(cfg, s, steps[0]);
      RunKeepsFresh(cfg, Next(cfg, s, steps[0]), steps[1..]);
    }
  }

  // Whatever the interleaving, a returned value was computed during the call and stored at both
  // levels, or it was stored at one level less than that level's timeout before the call began.
  lemma ReturnedValueIsFresh(cfg: Config, s: State, steps: seq<Step>, c: Caller)
    requires Initial(s) && Possible(cfg, s, steps)
    ensures var end := After(cfg, s, steps);
      c in end.calls && end.calls[c].phase.Done? ==>
        Fresh(cfg, end, end.calls[c].start, end.calls[c].phase.value)
  {
    RunKeepsFresh(cfg, s, steps);
    var end := After(cfg, s, steps);
    if c in end.calls { assert CallInvariant(cfg, end, end.calls[c]); }
  }

  /** ---- Deleting what is cached ---- */

  predicate OnlySince(e: Option<Entry>, since: Time) {
    e.Some? ==> e.value.stored >= since
  }

  // What is stored later is stored since.
  lemma {:induction false} RunKeepsSince(cfg: Config, s: State, steps: seq<Step>, since: Time)
    requires Possible(cfg, s, steps) && since <= s.now
    ensures var end := After(cfg, s, steps);
      && since <= end.now
      && (OnlySince(s.l1, since) ==> OnlySince(end.l1, since))
      && (OnlySince(s.l2, since) ==> OnlySince(end.l2, since))
    decreases |steps|
  {
    if steps != [] { RunKeepsSince(cfg, Next(cfg, s, steps[0]), steps[1..], since); }
  }

  ghost predicate StoredAnywhereSince(s: State, since: Time, v: Value) {
    exists level :: StoredSince(s, since, level, v)
  }

  // Nothing older than `since` is cached, nor has the call seen anything older.
  ghost predicate SeesOnlySince(s: State, since: Time, c: Caller) {
    && since <= s.now && OnlySince(s.l1, since) && OnlySince(s.l2, since)
    && c in s.calls && s.calls[c].start >= since && OnlySince(Found(s.calls[c].phase), since)
    && (s.calls[c].phase.Done? ==> StoredAnywhereSince(s, since, s.calls[c].phase.value))
  }

  lemma MoveSeesOnlySince(cfg: Config, s: State, c: Caller, data: int, since: Time)
    requires FreshInvariant(cfg, s) && SeesOnlySince(s, since, c) && Enabled(s, Move(c, data))
    ensures SeesOnlySince(Next(cfg, s, Move(c, data)), since, c)
  {
    var s1 := Next(cfg, s, Move(c, data));
    StepKeepsFresh(cfg, s, Move(c, data));
    assert CallInvariant(cfg, s, s.calls[c]) && CallInvariant(cfg, s1, s1.calls[c]);
    if s1.calls[c].phase.Done? {
      DoneIsStoredSince(cfg, s, c, data, since);
    }
  }

  lemma DoneIsStoredSince(cfg: Config, s: State, c: Caller, data: int, since: Time)
    requires FreshInvariant(cfg, s) && SeesOnlySince(s, since, c) && Enabled(s, Move(c, data))
    requires Next(cfg, s, Move(c, data)).calls[c].phase.Done?
    ensures var s1 := Next(cfg, s, Move(c, data)); StoredAnywhereSince(s1, since, s1.calls[c].phase.value)
  {
    var s1, phase := Next(cfg, s, Move(c, data)), s.calls[c].phase;
    var v := s1.calls[c].phase.value;
    assert CallInvariant(cfg, s, s.calls[c]);
    if phase.ReadL1? {
      assert Stored(L1, v, s.l1.value.stored) in s1.stores;
      assert StoredSince(s1, since, L1, v);
    } else if phase.StoreL2? {
      assert Stored(L2, v, s.now) in s1.stores;
      assert StoredSince(s1, since, L2, v);
    } else if phase.Unlock? && v == phase.value {
      var t :| t >= s.calls[c].start && Stored(L1, v, t) in s.stores;
      assert StoredSince(s1, since, L1, v);
    } else {
      var seen := if phase.Poll? then s.l2 else Found(phase);
      assert seen.Some? && v == seen.value.value && Stored(L2, v, seen.value.stored) in s1.stores;
      assert StoredSince(s1, since, L2, v);
    }
  }

  lemma StepSeesOnlySince(cfg: Config, s: State, step: Step, c: Caller, since: Time)
    requires FreshInvariant(cfg, s) && SeesOnlySince(s, since, c) && Enabled(s, step) && step != Begin(c)
    ensures SeesOnlySince(Next(cfg, s, step), since, c)
  {
    var s1 := Next(cfg, s, step);
    if step.Move? && step.caller == c {
      MoveSeesOnlySince(cfg, s, c, step.data, since);
    } else {
      if step.Move? { MoveEffect(cfg, s, step.caller, step.data); }
      assert s1.calls[c] == s.calls[c] && s.stores <= s1.stores;
      if s.calls[c].phase.Done? {
        var level :| StoredSince(s, since, level, s.calls[c].phase.value);
        StoredStays(s, s1, since, level, s.calls[c].phase.value);
      }
    }
  }

  lemma {:induction false} RunSeesOnlySince(cfg: Config, s: State, steps: seq<Step>, c: Caller, since: Time)
    requires FreshInvariant(cfg, s) && SeesOnlySince(s, since, c)
    requires Possible(cfg, s, steps) && Begin(c) !in steps
    ensures SeesOnlySince(After(cfg, s, steps), since, c)
    decreases |steps|
  {
    if steps != [] {
      assert steps[0] in steps;
      StepKeepsFresh(cfg, s, steps[0]);
      StepSeesOnlySince(cfg, s, steps[0], c, since);
      RunSeesOnlySince(cfg, Next(cfg, s, steps[0]), steps[1..], c, since);
    }
  }

  // The two levels are deleted one after the other. Whatever happens before, in between and afterwards, a
  // call that begins once both are gone returns a value that was stored since the first delete.
  lemma DeletedIsNotReturned(cfg: Config, s: State, between: seq<Step>, s2: State, later: seq<Step>, s3: State,
                             c: Caller, rest: seq<Step>)
    requires FreshInvariant(cfg, s)
    requires Possible(cfg, Next(cfg, s, Invalidate(true, false)), between)
    requires s2 == After(cfg, Next(cfg, s, Invalidate(true, false)), between)
    requires Possible(cfg, Next(cfg, s2, Invalidate(false, true)), later)
    requires s3 == After(cfg, Next(cfg, s2, Invalidate(false, true)), later)
    requires Enabled(s3, Begin(c)) && Possible(cfg, Next(cfg, s3, Begin(c)), rest) && Begin(c) !in rest
    ensures var end := After(cfg, Next(cfg, s3, Begin(c)), rest);
      c in end.calls && (end.calls[c].phase.Done? ==> StoredAnywhereSince(end, s.now, end.calls[c].phase.value))
  {
    StepKeepsFresh(cfg, s, Invalidate(true, false));
    var s1 := Next(cfg, s, Invalidate(true, false));
    RunKeepsFresh(cfg, s1, between);
    RunKeepsSince(cfg, s1, between, s.now);
    StepKeepsFresh(cfg, s2, Invalidate(false, true));
    var s2' := Next(cfg, s2, Invalidate(false, true));
    RunKeepsFresh(cfg, s2', later);
    RunKeepsSince(cfg, s2', later, s.now);
    StepKeepsFresh(cfg, s3, Begin(c));
    RunSeesOnlySince(cfg, Next(cfg, s3, Begin(c)), rest, c, s.now);
  }

  /** ---- The mutex ---- */

  function Lease(phase: Phase): Option<Time> {
    match phase
    case ComputeLocked(_, lease) => Some(lease)
    case StoreL1Locked(_, lease, _) => Some(lease)
    case StoreL2Locked(_, lease, _) => Some(lease)
    case Unlock(_, lease, _) => Some(lease)
    case _ => None
  }

  // The caller is in the guarded section and its mutex has not run out.
  predicate Guarded(s: State, c: Caller) {
    c in s.calls && Lease(s.calls[c].phase).Some? && Lease(s.calls[c].phase).value > s.now
  }

  ghost predicate MutexInvariant(s: State) {
    forall c | Guarded(s, c) :: s.mutex == Some((c, Lease(s.calls[c].phase).value))
  }

  lemma StepKeepsMutex(cfg: Config, s: State, step: Step)
    requires MutexInvariant(s) && Enabled(s, step)
    ensures MutexInvariant(Next(cfg, s, step))
  {
    var s1 := Next(cfg, s, step);
    forall c | Guarded(s1, c)
      ensures s1.mutex == Some((c, Lease(s1.calls[c].phase).value))
    {
      assert Guarded(s, c) || (step.Move? && step.caller == c && s.calls[c].phase.TryMutex?);
    }
  }

  lemma {:induction false} RunKeepsMutex(cfg: Config, s: State, steps: seq<Step>)
    requires MutexInvariant(s) && Possible(cfg, s, steps)
    ensures MutexInvariant(After(cfg, s, steps))
    decreases |steps|
  {
    if steps != [] {
      StepKeepsMutex(cfg, s, steps[0]);
      RunKeepsMutex(cfg, Next(cfg, s, steps[0]), steps[1..]);
    }
  }

  // While the mutex lives at most one caller computes under it.
  lemma OneComputesUnderTheMutex(cfg: Config, s: State, steps: seq<Step>, c: Caller, d: Caller)
    requires Initial(s) && Possible(cfg, s, steps)
    requires Guarded(After(cfg, s, steps), c) && Guarded(After(cfg, s, steps), d)
    ensures c == d
  {
    RunKeepsMutex(cfg, s, steps);
  }

  /** ---- Termination ---- */

  // How often a caller that has waited for `total` still looks at the second level.
  function PollsLeft(cfg: Config, total: Time): nat {
    if total >= cfg.timeoutMutex then 0 else ((cfg.timeoutMutex - total) * 10.0).Floor + 1
  }

  // A bound on the moves left to a call.
  function MovesLeft(cfg: Config, phase: Phase): nat {
    match phase
    case ReadL1 => 11 + PollsLeft(cfg, 0.0)
    case ReadL2 => 10 + PollsLeft(cfg, 0.0)
    case TryMutex(_) => 9 + PollsLeft(cfg, 0.0)
    case ComputeLocked(_, _) => 8 + PollsLeft(cfg, 0.0)
    case StoreL1Locked(_, _, _) => 7 + PollsLeft(cfg, 0.0)
    case StoreL2Locked(_, _, _) => 6 + PollsLeft(cfg, 0.0)
    case Unlock(_, _, _) => 5 + PollsLeft(cfg, 0.0)
    case Poll(total) => 4 + PollsLeft(cfg, total)
    case Compute => 3
    case StoreL1(_) => 2
    case StoreL2(_) => 1
    case Done(_) => 0
  }

  lemma PollsRunOut(cfg: Config, total: Time)
    requires total < cfg.timeoutMutex
    ensures PollsLeft(cfg, total + 0.1) < PollsLeft(cfg, total)
  {
    var left := (cfg.timeoutMutex - total) * 10.0;
    assert (cfg.timeoutMutex - (total + 0.1)) * 10.0 == left - 1.0;
    assert (left - 1.0).Floor == left.Floor - 1;
  }

  lemma MoveUsesOne(cfg: Config, s: State, c: Caller, data: int)
    requires Enabled(s, Move(c, data))
    ensures MovesLeft(cfg, Advance(cfg, s, c, data).calls[c].phase) < MovesLeft(cfg, s.calls[c].phase)
  {
    match s.calls[c].phase {
      case Poll(total) =>
        if total < cfg.timeoutMutex { PollsRunOut(cfg, total); }
      case _ =>
    }
  }

  function MovesOf(steps: seq<Step>, c: Caller): nat {
    if steps == [] then 0
    else (if steps[0].Move? && steps[0].caller == c then 1 else 0) + MovesOf(steps[1..], c)
  }

  // A call ends after a bounded number of its own moves, whatever the others do.
  lemma {:induction false} CallEnds(cfg: Config, s: State, steps: seq<Step>, c: Caller)
    requires Possible(cfg, s, steps) && Begin(c) !in steps && c in s.calls
    ensures c in After(cfg, s, steps).calls
    ensures MovesOf(steps, c) + MovesLeft(cfg, After(cfg, s, steps).calls[c].phase) <= MovesLeft(cfg, s.calls[c].phase)
    decreases |steps|
  {
    if steps != [] {
      var step := steps[0];
      if step.Move? && step.caller == c { MoveUsesOne(cfg, s, c, step.data); }
      CallEnds(cfg, Next(cfg, s, step), steps[1..], c);
    }
  }

  /** ---- What a call answers ---- */

  // A call begins and makes its first n moves, with nothing in between; its function would return `data`.
  function Moves(cfg: Config, s: State, c: Caller, data: int, n: nat): (r: State)
    requires c in s.calls
    ensures c in r.calls
  {
    if n == 0 then s
    else
      var before := Moves(cfg, s, c, data, n - 1);
      if before.calls[c].phase.Done? then before else Advance(cfg, before, c, data)
  }

  function CallAlone(cfg: Config, s: State, c: Caller, data: int, n: nat): State
    requires Enabled(s, Begin(c))
  {
    Moves(cfg, Next(cfg, s, Begin(c)), c, data, n)
  }

  // Both levels, the mutex and what has been stored are as they were.
  predicate Untouched(s: State, s1: State) {
    s1.l1 == s.l1 && s1.l2 == s.l2 && s1.mutex == s.mutex && s1.stores == s.stores
  }

  // Both levels hold the value, for their timeouts.
  predicate StoredNow(cfg: Config, s1: State, now: Time, v: Value) {
    && s1.l1 == Some(Entry(v, now, now + cfg.timeout))
    && s1.l2 == Some(Entry(v, now, now + cfg.timeoutL2))
  }

  // A live value of the first level is the answer, after one read and nothing else.
  lemma FirstLevelAnswers(cfg: Config, s: State, c: Caller, data: int)
    requires Enabled(s, Begin(c)) && !cfg.disabled
    requires s.l1.Some? && s.l1.value.until > s.now
    ensures var s1 := CallAlone(cfg, s, c, data, 1);
            s1.calls[c].phase == Done(s.l1.value.value) && Untouched(s, s1)
  {
    assert Moves(cfg, Next(cfg, s, Begin(c)), c, data, 0) == Next(cfg, s, Begin(c));
  }

  // A live value of the second level is the answer where another caller has the mutex.
  lemma SecondLevelAnswers(cfg: Config, s: State, c: Caller, data: int)
    requires Enabled(s, Begin(c)) && !cfg.disabled
    requires s.l1.None? || s.l1.value.until <= s.now
    requires s.l2.Some? && s.l2.value.until > s.now
    requires s.mutex.Some? && s.mutex.value.1 > s.now
    ensures var s1 := CallAlone(cfg, s, c, data, 3);
            s1.calls[c].phase == Done(s.l2.value.value) && Untouched(s, s1)
  {
    var s0 := Next(cfg, s, Begin(c));
    assert Moves(cfg, s0, c, data, 0) == s0;
    assert Moves(cfg, s0, c, data, 1).calls[c].phase == ReadL2;
    assert Moves(cfg, s0, c, data, 2).calls[c].phase == TryMutex(s.l2);
  }

  // Where there is none either the call waits, for a tenth of a second at a time.
  lemma WithoutMutexWaits(cfg: Config, s: State, c: Caller, data: int)
    requires Enabled(s, Begin(c)) && !cfg.disabled
    requires s.l1.None? || s.l1.value.until <= s.now
    requires s.l2.None? || s.l2.value.until <= s.now
    requires s.mutex.Some? && s.mutex.value.1 > s.now
    ensures var s1 := CallAlone(cfg, s, c, data, 3);
            s1.calls[c].phase == Poll(0.0) && Untouched(s, s1)
  {
    var s0 := Next(cfg, s, Begin(c));
    assert Moves(cfg, s0, c, data, 0) == s0;
    assert Moves(cfg, s0, c, data, 1).calls[c].phase == ReadL2;
    assert Moves(cfg, s0, c, data, 2).calls[c].phase == TryMutex(None);
  }

  // A waiting call returns a live value of the second level at its next look, and computes once it has
  // waited for as long as a mutex may last.
  lemma WaitingAnswers(cfg: Config, s: State, c: Caller, data: int)
    requires c in s.calls && s.calls[c].phase.Poll?
    ensures var total, s1 := s.calls[c].phase.total, Advance(cfg, s, c, data);
            && Untouched(s, s1)
            && s1.calls[c].phase ==
                 if total >= cfg.timeoutMutex then Compute
                 else if s.l2.Some? && s.l2.value.until > s.now then Done(s.l2.value.value)
                 else Poll(total + 0.1)
  {
  }

  // A call that does not get the mutex answers with the value of the second level that it has seen, or
  // waits, whatever has happened since.
  lemma RefusedFallsBack(cfg: Config, s: State, c: Caller, data: int)
    requires c in s.calls && s.calls[c].phase.TryMutex? && s.mutex.Some? && s.mutex.value.1 > s.now
    ensures var found, s1 := s.calls[c].phase.found, Advance(cfg, s, c, data);
            && Untouched(s, s1)
            && s1.calls[c].phase == if found.Some? then Done(found.value.value) else Poll(0.0)
  {
  }

  lemma MissTakesMutex(cfg: Config, s: State, c: Caller, data: int)
    requires Enabled(s, Begin(c)) && !cfg.disabled
    requires s.l1.None? || s.l1.value.until <= s.now
    requires s.mutex.None? || s.mutex.value.1 <= s.now
    ensures var s1, lease := CallAlone(cfg, s, c, data, 3), s.now + cfg.timeoutMutex;
            && s1.now == s.now && s1.mutex == Some((c, lease))
            && s1.calls[c].phase ==
                 ComputeLocked(if s.l2.Some? && s.l2.value.until > s.now then s.l2 else None, lease)
  {
    var s0 := Next(cfg, s, Begin(c));
    assert Moves(cfg, s0, c, data, 0) == s0;
    assert Moves(cfg, s0, c, data, 1).calls[c].phase == ReadL2;
    assert Moves(cfg, s0, c, data, 2).calls[c].phase == TryMutex(Live(s.l2, s.now));
  }

  // The first of some moves.
  lemma {:induction false} FirstMove(cfg: Config, s: State, c: Caller, data: int, n: nat)
    requires c in s.calls && !s.calls[c].phase.Done?
    ensures Moves(cfg, s, c, data, n + 1) == Moves(cfg, Advance(cfg, s, c, data), c, data, n)
  {
    if n == 0 {
      assert Moves(cfg, s, c, data, 0) == s;
    } else {
      FirstMove(cfg, s, c, data, n - 1);
    }
  }

  // What a call that computed under the mutex answers.
  function LockedAnswer(cfg: Config, found: Option<Entry>, v: Value): Phase {
    if cfg.truthy(v.data) then Done(v) else if found.Some? then Done(found.value.value) else Poll(0.0)
  }

  lemma UnlockAnswers(cfg: Config, s: State, c: Caller, data: int, found: Option<Entry>, lease: Time, v: Value)
    requires c in s.calls && s.calls[c].phase == Unlock(found, lease, v) && s.mutex == Some((c, lease))
    requires StoredNow(cfg, s, s.now, v)
    ensures var s1 := Moves(cfg, s, c, data, 1);
            StoredNow(cfg, s1, s.now, v) && s1.mutex == None && s1.calls[c].phase == LockedAnswer(cfg, found, v)
  {
    FirstMove(cfg, s, c, data, 0);
  }

  lemma SecondStoreAnswers(cfg: Config, s: State, c: Caller, data: int, found: Option<Entry>, lease: Time, v: Value)
    requires c in s.calls && s.calls[c].phase == StoreL2Locked(found, lease, v) && s.mutex == Some((c, lease))
    requires s.l1 == Some(Entry(v, s.now, s.now + cfg.timeout))
    ensures var s1 := Moves(cfg, s, c, data, 2);
            StoredNow(cfg, s1, s.now, v) && s1.mutex == None && s1.calls[c].phase == LockedAnswer(cfg, found, v)
  {
    FirstMove(cfg, s, c, data, 1);
    UnlockAnswers(cfg, Advance(cfg, s, c, data), c, data, found, lease, v);
  }

  lemma FirstStoreAnswers(cfg: Config, s: State, c: Caller, data: int, found: Option<Entry>, lease: Time, v: Value)
    requires c in s.calls && s.calls[c].phase == StoreL1Locked(found, lease, v) && s.mutex == Some((c, lease))
    ensures var s1 := Moves(cfg, s, c, data, 3);
            StoredNow(cfg, s1, s.now, v) && s1.mutex == None && s1.calls[c].phase == LockedAnswer(cfg, found, v)
  {
    FirstMove(cfg, s, c, data, 2);
    SecondStoreAnswers(cfg, Advance(cfg, s, c, data), c, data, found, lease, v);
  }

  // Under the mutex.
  lemma LockedAnswers(cfg: Config, s: State, c: Caller, data: int, found: Option<Entry>, lease: Time)
    requires c in s.calls && s.calls[c].phase == ComputeLocked(found, lease) && s.mutex == Some((c, lease))
    ensures var s1, v := Moves(cfg, s, c, data, 4), Value(data, s.now);
            && StoredNow(cfg, s1, s.now, v) && s1.mutex == None
            && s1.calls[c].phase ==
                 if cfg.truthy(data) then Done(v) else if found.Some? then Done(found.value.value) else Poll(0.0)
  {
    FirstMove(cfg, s, c, data, 3);
    FirstStoreAnswers(cfg, Advance(cfg, s, c, data), c, data, found, lease, Value(data, s.now));
  }

  // With the first level run out and the mutex free the call computes, even where the second level would
  // do, stores the value at both levels and gives the mutex back. A true value is the answer; for any
  // other the call falls back on what the second level held, or waits.
  lemma MissComputes(cfg: Config, s: State, c: Caller, data: int)
    requires Enabled(s, Begin(c)) && !cfg.disabled
    requires s.l1.None? || s.l1.value.until <= s.now
    requires s.mutex.None? || s.mutex.value.1 <= s.now
    ensures var s1, v := Moves(cfg, CallAlone(cfg, s, c, data, 3), c, data, 4), Value(data, s.now);
            && StoredNow(cfg, s1, s.now, v) && s1.mutex == None
            && s1.calls[c].phase ==
                 if cfg.truthy(data) then Done(v)
                 else if s.l2.Some? && s.l2.value.until > s.now then Done(s.l2.value.value)
                 else Poll(0.0)
  {
    MissTakesMutex(cfg, s, c, data);
    var found := if s.l2.Some? && s.l2.value.until > s.now then s.l2 else None;
    LockedAnswers(cfg, CallAlone(cfg, s, c, data, 3), c, data, found, s.now + cfg.timeoutMutex);
  }

  // With caching disabled, and at the end of the wait, a call computes, stores and answers with its own
  // value, whatever is cached.
  lemma ComputingAnswers(cfg: Config, s: State, c: Caller, data: int)
    requires c in s.calls && s.calls[c].phase == Compute
    ensures var s1, v := Moves(cfg, s, c, data, 3), Value(data, s.now);
            s1.calls[c].phase == Done(v) && StoredNow(cfg, s1, s.now, v) && s1.mutex == s.mutex
  {
    assert Moves(cfg, s, c, data, 0) == s;
    assert Moves(cfg, s, c, data, 1).calls[c].phase == StoreL1(Value(data, s.now));
    assert Moves(cfg, s, c, data, 2).calls[c].phase == StoreL2(Value(data, s.now));
  }

  lemma DisabledComputes(cfg: Config, s: State, c: Caller, data: int)
    requires Enabled(s, Begin(c)) && cfg.disabled
    ensures var s1, v := CallAlone(cfg, s, c, data, 3), Value(data, s.now);
            s1.calls[c].phase == Done(v) && StoredNow(cfg, s1, s.now, v) && s1.mutex == s.mutex
  {
    ComputingAnswers(cfg, Next(cfg, s, Begin(c)), c, data);
  }
}
