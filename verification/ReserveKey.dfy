/** Reservation keys: a list of (field, value) pairs written into one Redis key, and how it is read back. */
module ReserveKey {
  import opened Options
  import opened Strings

  type Pair = (string, string)

  function Flatten(pairs: seq<Pair>): seq<string> {
    if pairs == [] then [] else [pairs[0].0, pairs[0].1] + Flatten(pairs[1..])
  }

  // Reading segments two at a time; None is the IndexError of an odd number of segments.
  function Pairs(segments: seq<string>): Option<seq<Pair>> {
    if segments == [] then Some([])
    else if |segments| == 1 then None
    else
      var rest := Pairs(segments[2..]);
      if rest.None? then None else Some([(segments[0], segments[1])] + rest.value)
  }

  lemma {:induction false} PairsFlatten(pairs: seq<Pair>)
    ensures Pairs(Flatten(pairs)) == Some(pairs)
  {
    if pairs != [] {
      assert Flatten(pairs)[2..] == Flatten(pairs[1..]);
      PairsFlatten(pairs[1..]);
      assert pairs == [pairs[0]] + pairs[1..];
    }
  }

  lemma {:induction false} FlattenPairs(segments: seq<string>)
    requires Pairs(segments).Some?
    ensures Flatten(Pairs(segments).value) == segments
  {
    if segments != [] {
      FlattenPairs(segments[2..]);
      assert Pairs(segments).value[1..] == Pairs(segments[2..]).value;
      assert segments == [segments[0], segments[1]] + segments[2..];
    }
  }

  lemma {:induction false} FlattenSnoc(pairs: seq<Pair>, p: Pair)
    ensures Flatten(pairs + [p]) == Flatten(pairs) + [p.0, p.1]
  {
    if pairs != [] {
      FlattenSnoc(pairs[1..], p);
      assert (pairs + [p])[1..] == pairs[1..] + [p];
    }
  }

  lemma {:induction false} PairsIffEven(segments: seq<string>)
    ensures Pairs(segments).Some? <==> |segments| % 2 == 0
  {
    if |segments| > 1 { PairsIffEven(segments[2..]); }
  }

  function Category(pairs: seq<Pair>): string {
    Join(Flatten(pairs))
  }

  function Prefix(project: nat): string {
    "reserve_task:project:" + Decimal(project) + ":category:"
  }

  function Suffix(user: nat, task: nat): string {
    ":user:" + Decimal(user) + ":task:" + Decimal(task)
  }

  function Key(project: nat, pairs: seq<Pair>, user: nat, task: nat): string {
    Prefix(project) + Category(pairs) + Suffix(user, task)
  }

  // A key for two pairs, written out.
  lemma KeyIs(project: nat, a: Pair, b: Pair, user: nat, task: nat)
    ensures Key(project, [a, b], user, task) ==
            "reserve_task:project:" + Decimal(project) + ":category:" + Join([a.0, a.1, b.0, b.1])
            + (":user:" + Decimal(user) + ":task:" + Decimal(task))
    ensures DropMark(user) == ":user:" + Decimal(user) + ":task:"
  {
    assert [a, b][1..] == [b] && [b][1..] == [];
    assert Flatten([b]) == [b.0, b.1];
    assert Flatten([a, b]) == [a.0, a.1, b.0, b.1];
  }

  /** ---- The regular expression prefix(.+?):user ---- */

  // The group of the lazy match, when it has already taken k characters.
  function Lazy(s: string, k: nat): Option<string>
    requires k <= |s|
    decreases |s| - k
  {
    if k >= 1 && ":user" <= s[k..] then Some(s[..k])
    else if k == |s| || s[k] == '\n' then None
    else Lazy(s, k + 1)
  }

  // The leftmost match at or after position i.
  function Search(prefix: string, s: string, i: nat): Option<string>
    requires i <= |s|
    decreases |s| - i
  {
    var here := if prefix <= s[i..] then Lazy(s[i + |prefix|..], 0) else None;
    if here.Some? || i == |s| then here else Search(prefix, s, i + 1)
  }

  function Decoded(project: nat, key: string): Option<seq<Pair>> {
    var category := Search(Prefix(project), key, 0);
    if category.None? then None else Pairs(Split(category.value))
  }

  predicate OneLine(s: string) {
    '\n' !in s
  }

  ghost predicate NoUserBefore(s: string, from: nat, end: nat) {
    forall j | 1 <= j && from <= j < end && j <= |s| :: !(":user" <= s[j..])
  }

  lemma {:induction false} LazyStops(s: string, k: nat, end: nat)
    requires k <= end <= |s| && 1 <= end && ":user" <= s[end..]
    requires OneLine(s[..end]) && NoUserBefore(s, k, end)
    ensures Lazy(s, k) == Some(s[..end])
    decreases end - k
  {
    if k < end {
      assert s[..end][k] in s[..end];
      LazyStops(s, k + 1, end);
    }
  }

  lemma {:induction false} LazyMeans(s: string, k: nat)
    requires k <= |s| && Lazy(s, k).Some?
    ensures var c := Lazy(s, k).value;
      1 <= |c| <= |s| && k <= |c| && c == s[..|c|] && OneLine(c[k..]) && NoUserBefore(s, k, |c|)
    decreases |s| - k
  {
    if !(k >= 1 && ":user" <= s[k..]) {
      LazyMeans(s, k + 1);
      var c := Lazy(s, k).value;
      assert c[k..] == [s[k]] + c[k + 1..];
    }
  }

  lemma {:induction false} SearchIsOneLine(prefix: string, s: string, i: nat)
    requires i <= |s| && Search(prefix, s, i).Some?
    ensures OneLine(Search(prefix, s, i).value)
    decreases |s| - i
  {
    if prefix <= s[i..] && Lazy(s[i + |prefix|..], 0).Some? {
      LazyMeans(s[i + |prefix|..], 0);
      var c := Lazy(s[i + |prefix|..], 0).value;
      assert c[0..] == c;
    } else {
      SearchIsOneLine(prefix, s, i + 1);
    }
  }

  /** ---- When the key reads back ---- */

  // No colon and no newline in any segment, and no segment after the first starts with "user";
  // the second may do so after an empty first one, since the group takes at least one character.
  ghost predicate Readable(segments: seq<string>) {
    && NoColons(segments)
    && (forall s | s in segments :: OneLine(s))
    && forall i | 1 <= i < |segments| && "user" <= segments[i] :: i == 1 && segments[0] == ""
  }

  lemma {:induction false} OneLineJoin(segments: seq<string>)
    ensures OneLine(Join(segments)) <==> forall s | s in segments :: OneLine(s)
  {
    if |segments| > 1 {
      OneLineJoin(segments[1..]);
      assert segments == [segments[0]] + segments[1..];
      assert OneLine(Join(segments)) <==> OneLine(segments[0]) && OneLine(Join(segments[1..]));
    } else if |segments| == 1 {
      assert segments == [segments[0]];
    }
  }

  function Tail(user: nat, task: nat): seq<string> {
    ["user", Decimal(user), "task", Decimal(task)]
  }

  lemma TailIsSuffix(user: nat, task: nat)
    ensures ":" + Join(Tail(user, task)) == Suffix(user, task)
    ensures NoColons(Tail(user, task))
  {
    DecimalIsDigits(user);
    DecimalIsDigits(task);
    JoinFour("user", Decimal(user), "task", Decimal(task));
  }

  lemma PrefixIsNoLonger(segments: seq<string>, tail: seq<string>, i: nat)
    requires segments != [] && |segments| <= i <= |segments + tail|
    ensures |Join(segments)| <= |Join((segments + tail)[..i])|
  {
    var more := tail[..i - |segments|];
    assert (segments + tail)[..i] == segments + more;
    if more == [] {
      assert segments + more == segments;
    } else {
      JoinConcat(segments, more);
    }
  }

  // ":user" inside the first segments is the start of a segment that starts with "user".
  lemma UserInside(segments: seq<string>, tail: seq<string>, a: string, b: string) returns (i: int)
    requires segments != [] && NoColons(segments + tail)
    requires Join(segments + tail) == a + ":" + b && "user" <= b && |a| < |Join(segments)|
    ensures 1 <= i < |segments| && "user" <= segments[i] && a == Join(segments[..i])
  {
    var all := segments + tail;
    i := Boundary(all, a, b);
    if i >= |segments| {
      PrefixIsNoLonger(segments, tail, i);
      assert false;
    }
    assert all[..i] == segments[..i];
    assert all[i..][0] == segments[i];
    assert forall s | s in all[i..] :: s in all;
    StartsFirst(all[i..], "user");
  }

  lemma UserInCategory(segments: seq<string>, user: nat, task: nat, j: nat) returns (i: int)
    requires segments != [] && NoColons(segments) && j < |Join(segments)|
    requires ":user" <= (Join(segments) + Suffix(user, task))[j..]
    ensures 1 <= i < |segments| && "user" <= segments[i] && j == |Join(segments[..i])|
  {
    SuffixIsJoined(segments, user, task);
    i := AtColon(segments, Tail(user, task), Join(segments) + Suffix(user, task), j);
  }

  lemma SuffixIsJoined(segments: seq<string>, user: nat, task: nat)
    requires segments != []
    ensures Join(segments) + Suffix(user, task) == Join(segments + Tail(user, task)) && NoColons(Tail(user, task))
  {
    TailIsSuffix(user, task);
    JoinConcat(segments, Tail(user, task));
  }

  lemma AtColon(segments: seq<string>, tail: seq<string>, s: string, j: nat) returns (i: int)
    requires segments != [] && NoColons(segments) && NoColons(tail)
    requires s == Join(segments + tail) && j < |Join(segments)| && j <= |s| && ":user" <= s[j..]
    ensures 1 <= i < |segments| && "user" <= segments[i] && j == |Join(segments[..i])|
  {
    var a, b := s[..j], s[j..][1..];
    assert s[j..][0] == ':';
    assert s == a + ":" + b;
    assert "user" == ":user"[1..] <= b;
    i := UserInside(segments, tail, a, b);
  }

  lemma SegmentStartsAt(segments: seq<string>, i: nat, suffix: string)
    requires 1 <= i < |segments| && "user" <= segments[i]
    ensures var j := |Join(segments[..i])|;
      j < |Join(segments)| && ":user" <= (Join(segments) + suffix)[j..]
  {
    var a, b := segments[..i], segments[i..];
    assert segments == a + b;
    JoinConcat(a, b);
    assert (Join(segments) + suffix)[|Join(a)|..] == ":" + Join(b) + suffix;
    assert segments[i] <= Join(b);
  }

  lemma EmptyIsFirst(segments: seq<string>)
    requires segments != []
    ensures Join(segments) == "" <==> segments == [""]
  {
  }

  lemma ReadableIsFound(segments: seq<string>, user: nat, task: nat)
    requires |segments| > 1 && Readable(segments)
    ensures Lazy(Join(segments) + Suffix(user, task), 0) == Some(Join(segments))
  {
    var c := Join(segments);
    var rest := c + Suffix(user, task);
    OneLineJoin(segments);
    assert rest[..|c|] == c && rest[|c|..] == Suffix(user, task);
    assert ":user" <= Suffix(user, task);
    assert forall i | 1 <= i < |segments| && "user" <= segments[i] :: segments[..i] == [""];
    forall j | 1 <= j < |c|
      ensures !(":user" <= rest[j..])
    {
      if ":user" <= rest[j..] {
        var i := UserInCategory(segments, user, task, j);
        assert false;
      }
    }
    LazyStops(rest, 0, |c|);
  }

  lemma FoundIsReadable(segments: seq<string>, user: nat, task: nat)
    requires segments != [] && NoColons(segments)
    requires Lazy(Join(segments) + Suffix(user, task), 0) == Some(Join(segments))
    ensures Readable(segments)
  {
    var c := Join(segments);
    LazyMeans(c + Suffix(user, task), 0);
    assert c[0..] == c;
    OneLineJoin(segments);
    forall i | 1 <= i < |segments| && "user" <= segments[i]
      ensures i == 1 && segments[0] == ""
    {
      SegmentStartsAt(segments, i, Suffix(user, task));
      EmptyIsFirst(segments[..i]);
      assert segments[..i] == [""];
      assert segments[..i][0] == segments[0];
    }
  }

  // Only a newline makes the match at the start fail.
  lemma {:induction false} LazyFinds(s: string, k: nat, end: nat)
    requires k <= end <= |s| && 1 <= end && ":user" <= s[end..] && OneLine(s[..end])
    ensures Lazy(s, k).Some?
    decreases end - k
  {
    if k < end {
      assert s[..end][k] in s[..end];
      LazyFinds(s, k + 1, end);
    }
  }

  lemma SearchStartsWithLazy(project: nat, rest: string)
    requires Lazy(rest, 0).Some?
    ensures Search(Prefix(project), Prefix(project) + rest, 0) == Lazy(rest, 0)
  {
    var s := Prefix(project) + rest;
    assert s[0..] == s && s[|Prefix(project)|..] == rest;
  }

  lemma KeyIsPrefixed(project: nat, pairs: seq<Pair>, user: nat, task: nat)
    ensures Key(project, pairs, user, task) == Prefix(project) + (Category(pairs) + Suffix(user, task))
  {
  }

  lemma OneLineIsFoundAtStart(project: nat, c: string, user: nat, task: nat)
    requires c != "" && OneLine(c)
    ensures var rest := c + Suffix(user, task);
      Search(Prefix(project), Prefix(project) + rest, 0) == Lazy(rest, 0)
  {
    var rest := c + Suffix(user, task);
    assert rest[..|c|] == c && rest[|c|..] == Suffix(user, task);
    assert ":user" <= Suffix(user, task);
    LazyFinds(rest, 0, |c|);
    SearchStartsWithLazy(project, rest);
  }

  lemma ReadableReadsBack(project: nat, pairs: seq<Pair>, user: nat, task: nat)
    requires pairs != [] && Readable(Flatten(pairs))
    ensures Search(Prefix(project), Key(project, pairs, user, task), 0) == Some(Category(pairs))
    ensures Decoded(project, Key(project, pairs, user, task)) == Some(pairs)
  {
    var segments := Flatten(pairs);
    ReadableIsFound(segments, user, task);
    SearchStartsWithLazy(project, Category(pairs) + Suffix(user, task));
    KeyIsPrefixed(project, pairs, user, task);
    SplitJoin(segments);
    PairsFlatten(pairs);
  }

  // A key reads back to the pairs it was written for exactly when the pairs are readable.
  lemma KeyReadsBackIff(project: nat, pairs: seq<Pair>, user: nat, task: nat)
    requires pairs != []
    ensures Decoded(project, Key(project, pairs, user, task)) == Some(pairs) <==> Readable(Flatten(pairs))
  {
    var segments, key := Flatten(pairs), Key(project, pairs, user, task);
    if Readable(segments) {
      ReadableReadsBack(project, pairs, user, task);
    }
    if Decoded(project, key) == Some(pairs) {
      var found := Search(Prefix(project), key, 0).value;
      FlattenPairs(Split(found));
      JoinSplit(found);
      SplitHasNoColons(found);
      SearchIsOneLine(Prefix(project), key, 0);
      assert found == Category(pairs);
      EmptyIsFirst(segments);
      OneLineIsFoundAtStart(project, found, user, task);
      KeyIsPrefixed(project, pairs, user, task);
      FoundIsReadable(segments, user, task);
    }
  }

  // A value that starts with "user" cuts the category short.
  lemma UserValueDoesNotReadBack(project: nat, user: nat, task: nat)
    ensures Decoded(project, Key(project, [("company", "users")], user, task)) != Some([("company", "users")])
  {
    var pairs := [("company", "users")];
    assert pairs[1..] == [];
    assert Flatten(pairs) == ["company", "users"];
    assert "user" <= Flatten(pairs)[1] && Flatten(pairs)[0] != "";
    KeyReadsBackIff(project, pairs, user, task);
  }

  /** ---- Dropping the keys of one user ---- */

  datatype Reservation = Reservation(pairs: seq<Pair>, user: nat, task: nat)

  function Keys(project: nat, reservations: seq<Reservation>): seq<string> {
    if reservations == [] then []
    else
      var r := reservations[0];
      [Key(project, r.pairs, r.user, r.task)] + Keys(project, reservations[1..])
  }

  function OfOthers(reservations: seq<Reservation>, user: nat): seq<Reservation> {
    if reservations == [] then []
    else
      (if reservations[0].user != user then [reservations[0]] else []) + OfOthers(reservations[1..], user)
  }

  function DropMark(user: nat): string {
    ":user:" + Decimal(user) + ":task:"
  }

  function Dropped(keys: seq<string>, user: nat): seq<string> {
    if keys == [] then []
    else (if Contains(keys[0], DropMark(user)) then [] else [keys[0]]) + Dropped(keys[1..], user)
  }

  method DropUser(keys: seq<string>, user: nat) returns (kept: seq<string>)
    ensures kept == Dropped(keys, user)
  {
    var mark := DropMark(user);
    kept := [];
    var i := 0;
    while i < |keys|
      invariant 0 <= i <= |keys| && kept + Dropped(keys[i..], user) == Dropped(keys, user)
    {
      var key, rest := keys[i], keys[i + 1..];
      assert keys[i..][0] == key && keys[i..][1..] == rest;
      var hit := Contains(key, mark);
      assert Dropped(keys[i..], user) == (if hit then [] else [key]) + Dropped(rest, user);
      if !hit { kept := kept + [key]; }
      i := i + 1;
    }
    assert keys[|keys|..] == [];
  }

  function Head(project: nat): seq<string> {
    ["reserve_task", "project", Decimal(project), "category"]
  }

  function Segments(project: nat, r: Reservation): seq<string> {
    Head(project) + Flatten(r.pairs) + Tail(r.user, r.task)
  }

  lemma HeadIsPrefix(project: nat)
    ensures Join(Head(project)) + ":" == Prefix(project) && NoColons(Head(project))
  {
    DecimalIsDigits(project);
    JoinFour("reserve_task", "project", Decimal(project), "category");
  }

  lemma KeyIsJoined(project: nat, r: Reservation)
    requires r.pairs != []
    ensures Join(Segments(project, r)) == Key(project, r.pairs, r.user, r.task)
  {
    HeadIsPrefix(project);
    TailIsSuffix(r.user, r.task);
    JoinConcat(Head(project), Flatten(r.pairs));
    JoinConcat(Head(project) + Flatten(r.pairs), Tail(r.user, r.task));
  }

  ghost predicate Spelled(segments: seq<string>, user: nat) {
    exists i :: WindowAt(segments, i, "user", Decimal(user), "task")
  }

  lemma SpelledInKey(project: nat, r: Reservation, other: nat)
    requires r.pairs != []
    ensures Spelled(Segments(project, r), other) <==> other == r.user || Spelled(Flatten(r.pairs), other)
  {
    var all, pairs, u := Segments(project, r), Flatten(r.pairs), Decimal(other);
    var n := 4 + |pairs|;
    DecimalIsDigits(project);
    DecimalIsDigits(other);
    DecimalIsDigits(r.user);
    DecimalIsDigits(r.task);
    assert 'u' in "user" && 't' in "task";
    assert forall i | 0 <= i < 4 :: all[i] == Head(project)[i];
    assert forall i | 0 <= i < |pairs| :: all[4 + i] == pairs[i];
    assert all[n] == "user" && all[n + 1] == Decimal(r.user) && all[n + 2] == "task" && all[n + 3] == Decimal(r.task);
    if other == r.user { assert WindowAt(all, n, "user", u, "task"); }
    if Spelled(pairs, other) {
      var i :| WindowAt(pairs, i, "user", u, "task");
      assert WindowAt(all, 4 + i, "user", u, "task");
    }
    if Spelled(all, other) {
      var i :| WindowAt(all, i, "user", u, "task");
      if i == n {
        DecimalIsInjective(other, r.user);
      } else {
        assert WindowAt(pairs, i - 4, "user", u, "task");
      }
    }
  }

  lemma DropMarkIsMark(user: nat)
    ensures DropMark(user) == Mark("user", Decimal(user), "task")
  {
    JoinThree("user", Decimal(user), "task");
  }

  // The test drops a key exactly when it is the user's, or the reserved pairs spell the mark themselves.
  lemma MarkIsTheUsersIff(project: nat, r: Reservation, other: nat)
    requires r.pairs != [] && NoColons(Flatten(r.pairs))
    ensures Contains(Key(project, r.pairs, r.user, r.task), DropMark(other)) <==>
            other == r.user || Spelled(Flatten(r.pairs), other)
  {
    var all := Segments(project, r);
    HeadIsPrefix(project);
    TailIsSuffix(r.user, r.task);
    KeyIsJoined(project, r);
    DecimalIsDigits(r.task);
    DecimalIsDigits(other);
    DropMarkIsMark(other);
    assert 't' in "task" && all[|all| - 1] == Decimal(r.task);
    MarkIsWindow(all, "user", Decimal(other), "task");
    SpelledInKey(project, r, other);
  }

  // Readable pairs whose first field is not "user", nor empty before a value "user".
  ghost predicate Plain(pairs: seq<Pair>) {
    && pairs != []
    && Readable(Flatten(pairs))
    && pairs[0].0 != "user"
    && !(pairs[0].0 == "" && pairs[0].1 == "user")
  }

  lemma PlainIsNotSpelled(pairs: seq<Pair>, user: nat)
    requires Plain(pairs)
    ensures !Spelled(Flatten(pairs), user)
  {
    var segments := Flatten(pairs);
    assert segments[0] == pairs[0].0 && segments[1] == pairs[0].1;
    assert forall i | 1 < i < |segments| :: segments[i] != "user";
  }

  lemma {:induction false} DropsExactlyTheUser(project: nat, reservations: seq<Reservation>, user: nat)
    requires forall r | r in reservations :: Plain(r.pairs)
    ensures Dropped(Keys(project, reservations), user) == Keys(project, OfOthers(reservations, user))
  {
    if reservations != [] {
      var r := reservations[0];
      PlainIsNotSpelled(r.pairs, user);
      MarkIsTheUsersIff(project, r, user);
      DropsExactlyTheUser(project, reservations[1..], user);
      DropFirst(project, reservations, user);
    }
  }

  lemma DropFirst(project: nat, reservations: seq<Reservation>, user: nat)
    requires reservations != []
    requires var r := reservations[0];
      Contains(Key(project, r.pairs, r.user, r.task), DropMark(user)) <==> r.user == user
    requires Dropped(Keys(project, reservations[1..]), user) == Keys(project, OfOthers(reservations[1..], user))
    ensures Dropped(Keys(project, reservations), user) == Keys(project, OfOthers(reservations, user))
  {
    var r, rest := reservations[0], OfOthers(reservations[1..], user);
    var key, keys := Key(project, r.pairs, r.user, r.task), Keys(project, reservations[1..]);
    assert ([r] + rest)[1..] == rest && ([key] + keys)[1..] == keys;
    assert [] + rest == rest;
  }
}
