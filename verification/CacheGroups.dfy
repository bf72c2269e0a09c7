/**
 Memoized functions and their invalidation groups: every cached result is a member of its
 groups, so deleting a group makes every function in it compute again.
 */
module CacheGroups {
  import opened Options

  type Time = real

  // Distinct calls have distinct keys.
  datatype Key = Key(fn: int, args: seq<string>)

  datatype Entry = Entry(value: int, until: Time)

  // How a function names one of its groups.
  datatype GroupArg =
    | ByArguments(indices: seq<nat>)
    | ByName(name: string)
    | ByFunction(f: seq<string> -> string)
    | Nothing
    | Other

  datatype Named = Group(name: string) | Stop | Raise

  function JoinArguments(indices: seq<nat>, args: seq<string>): string
    requires forall k | 0 <= k < |indices| :: indices[k] < |args|
  {
    if indices == [] then ""
    else if |indices| == 1 then args[indices[0]]
    else args[indices[0]] + "_" + JoinArguments(indices[1..], args)
  }

  function NameOf(arg: GroupArg, args: seq<string>): Named {
    match arg
    case ByArguments(indices) =>
      if forall k | 0 <= k < |indices| :: indices[k] < |args| then Group(JoinArguments(indices, args)) else Raise
    case ByName(name) => Group(name)
    case ByFunction(f) => Group(f(args))
    case Nothing => Stop
    case Other => Raise
  }

  // The groups named before the first argument that stops or raises.
  function Reached(groupArgs: seq<GroupArg>, args: seq<string>): seq<string> {
    if groupArgs == [] then []
    else
      match NameOf(groupArgs[0], args)
      case Group(name) => [name] + Reached(groupArgs[1..], args)
      case _ => []
  }

  predicate Raises(groupArgs: seq<GroupArg>, args: seq<string>) {
    if groupArgs == [] then false
    else
      match NameOf(groupArgs[0], args)
      case Group(_) => Raises(groupArgs[1..], args)
      case Stop => false
      case Raise => true
  }

  function MembersOf(groups: map<string, set<Key>>, group: string): set<Key> {
    if group in groups then groups[group] else {}
  }

  datatype Store = Store(entries: map<Key, Entry>, groups: map<string, set<Key>>) {
    function Members(group: string): set<Key> {
      MembersOf(groups, group)
    }

    predicate Cached(now: Time, key: Key) {
      key in entries && entries[key].until > now
    }
  }

  type Registry = map<int, seq<GroupArg>>

  function GroupArgsOf(registry: Registry, key: Key): seq<GroupArg> {
    if key.fn in registry then registry[key.fn] else []
  }

  function GroupsOf(registry: Registry, key: Key): seq<string> {
    Reached(GroupArgsOf(registry, key), key.args)
  }

  function AddTo(groups: map<string, set<Key>>, key: Key, names: seq<string>): map<string, set<Key>>
    decreases |names|
  {
    if names == [] then groups
    else
      var members := MembersOf(groups, names[0]);
      AddTo(groups[names[0] := members + {key}], key, names[1..])
  }

  /** ---- The effect of a call and of deleting a group ---- */

  // A call that finds no live entry, or does not look, stores what it computes.
  function Called(registry: Registry, s: Store, now: Time, key: Key, value: int, timeout: Time, disabled: bool): Store {
    if !disabled && s.Cached(now, key) then s
    else Store(s.entries[key := Entry(value, now + timeout)], AddTo(s.groups, key, GroupsOf(registry, key)))
  }

  function Deleted(s: Store, group: string): Store {
    Store(s.entries - s.Members(group), s.groups - {group})
  }

  /** ---- The code ---- */

  class Cache {
    const registry: Registry
    var entries: map<Key, Entry>
    var groups: map<string, set<Key>>

    constructor (registry: Registry)
      ensures this.registry == registry && Contents() == Store(map[], map[])
    {
      this.registry := registry;
      entries, groups := map[], map[];
    }

    function Contents(): Store
      reads this
    {
      Store(entries, groups)
    }

    method AddKeyToCacheGroups(key: Key, groupArgs: seq<GroupArg>, args: seq<string>) returns (raised: bool)
      modifies this`groups
      ensures groups == AddTo(old(groups), key, Reached(groupArgs, args))
      ensures raised <==> Raises(groupArgs, args)
      ensures forall g, k :: k in MembersOf(groups, g) <==>
                k in MembersOf(old(groups), g) || (k == key && JoinsGroup(groupArgs, args, g))
    {
      forall g, k
        ensures k in MembersOf(AddTo(groups, key, Reached(groupArgs, args)), g) <==>
                  k in MembersOf(groups, g) || (k == key && JoinsGroup(groupArgs, args, g))
      {
        AddToMembers(groups, key, Reached(groupArgs, args), g, k);
        ReachedIff(groupArgs, args, g);
      }
      var i := 0;
      while i < |groupArgs|
        invariant 0 <= i <= |groupArgs|
        invariant AddTo(groups, key, Reached(groupArgs[i..], args)) == AddTo(old(groups), key, Reached(groupArgs, args))
        invariant Raises(groupArgs[i..], args) <==> Raises(groupArgs, args)
      {
        var name: string;
        assert groupArgs[i..][0] == groupArgs[i] && groupArgs[i..][1..] == groupArgs[i + 1..];
        match NameOf(groupArgs[i], args) {
          case Group(n) => name := n;
          case Stop => return false;
          case Raise => return true;
        }
        ghost var rest := Reached(groupArgs[i + 1..], args);
        assert ([name] + rest)[1..] == rest;
        groups := groups[name := (if name in groups then groups[name] else {}) + {key}];
        i := i + 1;
      }
      raised := false;
    }

    // `computed` is what the wrapped function would return; None is an exception on the way out.
    method Memoize(key: Key, now: Time, computed: int, timeout: Time, disabled: bool)
      returns (output: Option<int>, recomputed: bool)
      modifies this
      ensures Contents() == Called(registry, old(Contents()), now, key, computed, timeout, disabled)
      ensures recomputed <==> disabled || !old(Contents()).Cached(now, key)
      ensures !recomputed ==> output == Some(old(entries[key].value))
      ensures recomputed ==>
                output == if Raises(GroupArgsOf(registry, key), key.args) then None else Some(computed)
      ensures recomputed <==> disabled || key !in old(entries) || old(entries)[key].until <= now
      ensures entries == if recomputed then old(entries)[key := Entry(computed, now + timeout)] else old(entries)
      ensures forall g, k :: k in MembersOf(groups, g) <==>
                || k in MembersOf(old(groups), g)
                || (recomputed && k == key && JoinsGroup(GroupArgsOf(registry, key), key.args, g))
    {
      if !disabled {
        if key in entries && entries[key].until > now {
          return Some(entries[key].value), false;
        }
      }
      entries := entries[key := Entry(computed, now + timeout)];
      var raised := AddKeyToCacheGroups(key, if key.fn in registry then registry[key.fn] else [], key.args);
      return if raised then None else Some(computed), true;
    }

    method DeleteCacheGroup(group: string)
      modifies this
      ensures Contents() == Deleted(old(Contents()), group)
      ensures forall k :: k in entries <==> k in old(entries) && k !in MembersOf(old(groups), group)
      ensures forall k | k in entries :: entries[k] == old(entries)[k]
      ensures forall g :: MembersOf(groups, g) == if g == group then {} else MembersOf(old(groups), g)
    {
      var keysToDelete := if group in groups then groups[group] else {};
      entries := entries - keysToDelete;
      groups := groups - {group};
    }
  }

  /** ---- Membership ---- */

  // Every cached result is a member of each of its groups.
  ghost predicate Covered(registry: Registry, s: Store) {
    forall k | k in s.entries :: InItsGroups(registry, s.groups, k)
  }

  ghost predicate InItsGroups(registry: Registry, groups: map<string, set<Key>>, k: Key) {
    forall g | g in GroupsOf(registry, k) :: k in MembersOf(groups, g)
  }

  lemma {:induction false} AddToMembers(groups: map<string, set<Key>>, key: Key, names: seq<string>, g: string, k: Key)
    ensures k in MembersOf(AddTo(groups, key, names), g) <==> k in MembersOf(groups, g) || (k == key && g in names)
    decreases |names|
  {
    if names != [] {
      AddToMembers(groups[names[0] := MembersOf(groups, names[0]) + {key}], key, names[1..], g, k);
      assert names == [names[0]] + names[1..];
    }
  }

  lemma CallKeepsCovered(registry: Registry, s: Store, now: Time, key: Key, value: int, timeout: Time, disabled: bool)
    requires Covered(registry, s)
    ensures Covered(registry, Called(registry, s, now, key, value, timeout, disabled))
  {
    var s1 := Called(registry, s, now, key, value, timeout, disabled);
    if s1 != s {
      forall k, g | k in s1.entries && g in GroupsOf(registry, k)
        ensures k in MembersOf(s1.groups, g)
      {
        assert k != key ==> InItsGroups(registry, s.groups, k);
        AddToMembers(s.groups, key, GroupsOf(registry, key), g, k);
      }
    }
  }

  lemma DeleteKeepsCovered(registry: Registry, s: Store, group: string)
    requires Covered(registry, s)
    ensures Covered(registry, Deleted(s, group))
    ensures forall k | k in Deleted(s, group).entries :: group !in GroupsOf(registry, k)
  {
    var s1 := Deleted(s, group);
    forall k, g | k in s1.entries && g in GroupsOf(registry, k)
      ensures k in MembersOf(s1.groups, g) && g != group
    {
      assert k in s.entries && InItsGroups(registry, s.groups, k);
    }
  }

  /** ---- Runs ---- */

  datatype Step =
    | Call(key: Key, value: int, timeout: Time, disabled: bool)
    | DeleteGroup(group: string)
    | DeleteKey(key: Key)
    | Tick(elapsed: Time)

  datatype State = State(store: Store, now: Time)

  function Next(registry: Registry, s: State, step: Step): State {
    match step
    case Call(key, value, timeout, disabled) =>
      s.(store := Called(registry, s.store, s.now, key, value, timeout, disabled))
    case DeleteGroup(group) => s.(store := Deleted(s.store, group))
    case DeleteKey(key) => s.(store := Store(s.store.entries - {key}, s.store.groups))
    case Tick(elapsed) => s.(now := s.now + elapsed)
  }

  function After(registry: Registry, s: State, steps: seq<Step>): State
    decreases |steps|
  {
    if steps == [] then s else After(registry, Next(registry, s, steps[0]), steps[1..])
  }

  predicate Calls(step: Step, key: Key) {
    step.Call? && step.key == key
  }

  lemma {:induction false} RunKeepsCovered(registry: Registry, s: State, steps: seq<Step>)
    requires Covered(registry, s.store)
    ensures Covered(registry, After(registry, s, steps).store)
    decreases |steps|
  {
    if steps != [] {
      match steps[0] {
        case Call(key, value, timeout, disabled) =>
          CallKeepsCovered(registry, s.store, s.now, key, value, timeout, disabled);
        case DeleteGroup(group) => DeleteKeepsCovered(registry, s.store, group);
        case DeleteKey(key) =>
        case Tick(elapsed) =>
      }
      RunKeepsCovered(registry, Next(registry, s, steps[0]), steps[1..]);
    }
  }

  lemma {:induction false} AbsentUntilCalled(registry: Registry, s: State, steps: seq<Step>, key: Key)
    requires key !in s.store.entries && forall step | step in steps :: !Calls(step, key)
    ensures key !in After(registry, s, steps).store.entries
    decreases |steps|
  {
    if steps != [] {
      assert steps[0] in steps;
      AbsentUntilCalled(registry, Next(registry, s, steps[0]), steps[1..], key);
    }
  }

  // After any run from an empty cache, deleting a group leaves no result of a function in it,
  // and until such a function is called again nothing brings one back.
  lemma DeletedGroupIsRecomputed(registry: Registry, start: Time, before: seq<Step>, group: string, between: seq<Step>, key: Key)
    requires group in GroupsOf(registry, key)
    requires forall step | step in between :: !Calls(step, key)
    ensures var s := After(registry, State(Store(map[], map[]), start), before);
      var s1 := After(registry, Next(registry, s, DeleteGroup(group)), between);
      !s1.store.Cached(s1.now, key)
  {
    var empty := State(Store(map[], map[]), start);
    RunKeepsCovered(registry, empty, before);
    var s := After(registry, empty, before);
    DeleteKeepsCovered(registry, s.store, group);
    AbsentUntilCalled(registry, Next(registry, s, DeleteGroup(group)), between, key);
  }

  // A result deleted by name stays away until its function is called again with these arguments.
  lemma DeletedResultIsRecomputed(registry: Registry, s: State, between: seq<Step>, key: Key)
    requires forall step | step in between :: !Calls(step, key)
    ensures key !in After(registry, Next(registry, s, DeleteKey(key)), between).store.entries
  {
    AbsentUntilCalled(registry, Next(registry, s, DeleteKey(key)), between, key);
  }

  // The time that passes during the steps.
  function Elapsed(steps: seq<Step>): Time {
    if steps == [] then 0.0
    else (if steps[0].Tick? then steps[0].elapsed else 0.0) + Elapsed(steps[1..])
  }

  lemma {:induction false} ClockAdvances(registry: Registry, s: State, steps: seq<Step>)
    ensures After(registry, s, steps).now == s.now + Elapsed(steps)
    decreases |steps|
  {
    if steps != [] { ClockAdvances(registry, Next(registry, s, steps[0]), steps[1..]); }
  }

  /** ---- Nothing else is deleted ---- */

  // A group holds only results that name it.
  ghost predicate OnlyNamed(registry: Registry, s: Store) {
    forall g, k | k in MembersOf(s.groups, g) :: g in GroupsOf(registry, k)
  }

  lemma StepKeepsOnlyNamed(registry: Registry, s: State, step: Step)
    requires OnlyNamed(registry, s.store)
    ensures OnlyNamed(registry, Next(registry, s, step).store)
  {
    var s1 := Next(registry, s, step);
    forall g, k | k in MembersOf(s1.store.groups, g)
      ensures g in GroupsOf(registry, k)
    {
      if step.Call? { AddToMembers(s.store.groups, step.key, GroupsOf(registry, step.key), g, k); }
      assert k in MembersOf(s.store.groups, g) || g in GroupsOf(registry, k);
    }
  }

  lemma {:induction false} RunKeepsOnlyNamed(registry: Registry, s: State, steps: seq<Step>)
    requires OnlyNamed(registry, s.store)
    ensures OnlyNamed(registry, After(registry, s, steps).store)
    decreases |steps|
  {
    if steps != [] {
      StepKeepsOnlyNamed(registry, s, steps[0]);
      RunKeepsOnlyNamed(registry, Next(registry, s, steps[0]), steps[1..]);
    }
  }

  // The step neither calls the function with these arguments nor deletes its result.
  predicate Spares(registry: Registry, step: Step, key: Key) {
    match step
    case Call(k, _, _, _) => k != key
    case DeleteGroup(group) => group !in GroupsOf(registry, key)
    case DeleteKey(k) => k != key
    case Tick(_) => true
  }

  lemma {:induction false} SparedStays(registry: Registry, s: State, steps: seq<Step>, key: Key)
    requires OnlyNamed(registry, s.store) && key in s.store.entries
    requires forall step | step in steps :: Spares(registry, step, key)
    ensures var end := After(registry, s, steps).store;
      key in end.entries && end.entries[key] == s.store.entries[key]
    decreases |steps|
  {
    if steps != [] {
      var step := steps[0];
      assert step in steps && Spares(registry, step, key);
      StepKeepsOnlyNamed(registry, s, step);
      assert step.DeleteGroup? ==> key !in MembersOf(s.store.groups, step.group);
      SparedStays(registry, Next(registry, s, step), steps[1..], key);
    }
  }

  // A result that was computed answers later calls until its timeout is over, it is deleted by
  // name, or one of its own groups is; deleting other groups does not touch it.
  lemma ResultLasts(registry: Registry, start: Time, before: seq<Step>, key: Key, value: int, timeout: Time,
                    disabled: bool, between: seq<Step>)
    requires var s := After(registry, State(Store(map[], map[]), start), before);
      disabled || !s.store.Cached(s.now, key)
    requires forall step | step in between :: Spares(registry, step, key)
    ensures var s := After(registry, State(Store(map[], map[]), start), before);
      var s1 := After(registry, Next(registry, s, Call(key, value, timeout, disabled)), between);
      && key in s1.store.entries && s1.store.entries[key].value == value
      && (s1.store.Cached(s1.now, key) <==> Elapsed(between) < timeout)
  {
    var empty, call := State(Store(map[], map[]), start), Call(key, value, timeout, disabled);
    RunKeepsOnlyNamed(registry, empty, before);
    var s := After(registry, empty, before);
    StepKeepsOnlyNamed(registry, s, call);
    SparedStays(registry, Next(registry, s, call), between, key);
    ClockAdvances(registry, Next(registry, s, call), between);
  }

  // The result joins a group that is named before the first argument that is missing or in error.
  ghost predicate JoinsGroup(groupArgs: seq<GroupArg>, args: seq<string>, g: string) {
    exists i :: 0 <= i < |groupArgs| && NameOf(groupArgs[i], args) == Group(g) &&
                forall j | 0 <= j < i :: NameOf(groupArgs[j], args).Group?
  }

  // Adding the key raises when the first argument that names no group is in error, not missing.
  lemma {:induction false} RaisesIff(groupArgs: seq<GroupArg>, args: seq<string>)
    ensures Raises(groupArgs, args) <==>
            exists i :: 0 <= i < |groupArgs| && NameOf(groupArgs[i], args) == Raise &&
                        forall j | 0 <= j < i :: NameOf(groupArgs[j], args).Group?
  {
    if groupArgs != [] {
      var rest := groupArgs[1..];
      RaisesIff(rest, args);
      assert forall i | 0 <= i < |rest| :: rest[i] == groupArgs[i + 1];
      if Raises(groupArgs, args) && NameOf(groupArgs[0], args) != Raise {
        var i :| 0 <= i < |rest| && NameOf(rest[i], args) == Raise && forall j | 0 <= j < i :: NameOf(rest[j], args).Group?;
        assert NameOf(groupArgs[i + 1], args) == Raise;
        assert forall j | 0 < j < i + 1 :: groupArgs[j] == rest[j - 1];
      }
    }
  }

  // How an argument names a group: by itself, by a function of the call's arguments, or by some of them
  // joined with underscores; an index out of range or anything else is an error.
  lemma NameOfMeans(name: string, f: seq<string> -> string, args: seq<string>, i: nat, rest: seq<nat>)
    ensures NameOf(ByName(name), args) == Group(name)
    ensures NameOf(ByFunction(f), args) == Group(f(args))
    ensures NameOf(Nothing, args) == Stop && NameOf(Other, args) == Raise
    ensures NameOf(ByArguments([]), args) == Group("")
    ensures NameOf(ByArguments([i]), args) == if i < |args| then Group(args[i]) else Raise
    ensures rest != [] ==>
              NameOf(ByArguments([i] + rest), args) ==
                if i < |args| && NameOf(ByArguments(rest), args).Group?
                then Group(args[i] + "_" + NameOf(ByArguments(rest), args).name) else Raise
  {
    var all := [i] + rest;
    assert all[1..] == rest;
    assert (forall k | 0 <= k < |all| :: all[k] < |args|) <==> i < |args| && forall k | 0 <= k < |rest| :: rest[k] < |args| by {
      if forall k | 0 <= k < |all| :: all[k] < |args| {
        assert all[0] == i;
        assert forall k | 0 <= k < |rest| :: rest[k] == all[k + 1];
      }
    }
  }

  // Which groups a result joins.
  lemma {:induction false} ReachedIff(groupArgs: seq<GroupArg>, args: seq<string>, g: string)
    ensures g in Reached(groupArgs, args) <==> JoinsGroup(groupArgs, args, g)
  {
    if groupArgs != [] {
      var first, rest := NameOf(groupArgs[0], args), groupArgs[1..];
      ReachedIff(rest, args, g);
      assert forall i | 0 <= i < |rest| :: rest[i] == groupArgs[i + 1];
      if g in Reached(groupArgs, args) && first != Group(g) {
        var i :| 0 <= i < |rest| && NameOf(rest[i], args) == Group(g) &&
                 forall j | 0 <= j < i :: NameOf(rest[j], args).Group?;
        assert NameOf(groupArgs[i + 1], args) == Group(g);
        assert forall j | 0 < j < i + 1 :: groupArgs[j] == rest[j - 1];
      }
    }
  }
}
