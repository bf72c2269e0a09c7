/**
 The filter on task info fields: conditions grouped by field, compiled to a conjunction of
 disjunctions over bound parameters.
 */
module TaskInfoFilter {
  import opened Options
  import opened LikePattern
  import opened Strings

  // The info column of a task; ->> yields the text of a field, or null.
  type Info = map<string, string>

  // The operators by name: "starts with", "contains", "equals", or a name that is none of these.
  datatype Operator = StartsWith | Contains | Equals | Unknown(name: string)

  // An operator and its value.
  type Op = (Operator, string)

  datatype Condition = Condition(field: string, operator: Operator, value: string)

  // One field with its conditions, in the order in which they arrived.
  datatype Group = Group(field: string, ops: seq<Op>)

  // A parameter, numbered in its name.
  datatype Param = FilterByField(index: nat)

  // A comparison of a field with a parameter, and the filter made of such.
  datatype Piece = Piece(field: string, operator: Operator, param: Param)

  datatype Query = Query(pieces: seq<seq<Piece>>, params: map<Param, string>)

  datatype Compiled = Success(query: Query) | BadRequest

  function ParamValue(operator: Operator, value: string): string {
    match operator
    case StartsWith => EscapeLikeParam(value) + "%"
    case Contains => "%" + EscapeLikeParam(value) + "%"
    case _ => value
  }

  /** ---- Meaning ---- */

  // COALESCE(task.info->>field, '').
  function Text(info: Info, field: string): string {
    if field in info then info[field] else ""
  }

  // Whether the database accepts a row on a piece, with its parameter bound to `bound`.
  predicate PieceHolds(fold: char -> char, info: Info, piece: Piece, bound: string) {
    if piece.operator.Equals? then Fold(fold, Text(info, piece.field)) == Fold(fold, bound)
    else ILike(fold, Text(info, piece.field), bound)
  }

  ghost predicate Bound(query: Query) {
    forall g | g in query.pieces :: forall p | p in g :: p.param in query.params
  }

  ghost predicate Accepts(fold: char -> char, info: Info, query: Query)
    requires Bound(query)
  {
    forall g | g in query.pieces :: exists p :: p in g && PieceHolds(fold, info, p, query.params[p.param])
  }

  // What a condition asks of a row.
  ghost predicate Meets(fold: char -> char, info: Info, c: Condition) {
    var text, value := Fold(fold, Text(info, c.field)), Fold(fold, c.value);
    if c.operator.StartsWith? then value <= text
    else if c.operator.Contains? then Occurs(value, text)
    else value == text
  }

  ghost predicate Mentioned(conditions: seq<Condition>, field: string) {
    exists c :: c in conditions && c.field == field
  }

  // Every field mentioned has a condition that the row meets.
  ghost predicate Satisfies(fold: char -> char, info: Info, conditions: seq<Condition>) {
    forall f | Mentioned(conditions, f) :: exists c :: c in conditions && c.field == f && Meets(fold, info, c)
  }

  /** ---- Grouping ---- */

  // Where the group of a field is, or the end.
  function Find(groups: seq<Group>, field: string): (k: nat)
    ensures k <= |groups| && (k < |groups| ==> groups[k].field == field)
    ensures forall j | 0 <= j < k :: groups[j].field != field
  {
    if groups == [] || groups[0].field == field then 0 else Find(groups[1..], field) + 1
  }

  function Add(groups: seq<Group>, c: Condition): seq<Group> {
    var k := Find(groups, c.field);
    if k == |groups| then groups + [Group(c.field, [(c.operator, c.value)])]
    else groups[k := Group(c.field, groups[k].ops + [(c.operator, c.value)])]
  }

  // A dictionary from fields to lists, in the order in which the fields first appear.
  method ReduceFilters(conditions: seq<Condition>) returns (groups: seq<Group>)
    ensures Groups(groups, conditions) && InOrder(groups, conditions)
  {
    groups := [];
    for i := 0 to |conditions|
      invariant Groups(groups, conditions[..i]) && InOrder(groups, conditions[..i])
    {
      AddKeepsGroups(groups, conditions[..i], conditions[i]);
      AddKeepsOrder(groups, conditions[..i], conditions[i]);
      assert conditions[..i + 1] == conditions[..i] + [conditions[i]];
      groups := Add(groups, conditions[i]);
    }
    assert conditions[..|conditions|] == conditions;
  }

  // The groups have different fields, none is empty, and together they hold the conditions;
  // each group has its conditions in order.
  ghost predicate Groups(groups: seq<Group>, conditions: seq<Condition>) {
    && (forall i, j | 0 <= i < j < |groups| :: groups[i].field != groups[j].field)
    && (forall g | g in groups :: g.ops != [] && g.ops == OpsOf(conditions, g.field))
    && forall f :: (exists g :: g in groups && g.field == f) <==> Mentioned(conditions, f)
  }

  // The field is mentioned before position k.
  ghost predicate MentionedBefore(conditions: seq<Condition>, field: string, k: int) {
    exists m :: 0 <= m < k && m < |conditions| && conditions[m].field == field
  }

  // A group comes before those whose fields are mentioned later.
  ghost predicate InOrder(groups: seq<Group>, conditions: seq<Condition>) {
    forall i, j, k | 0 <= i < j < |groups| && 0 <= k < |conditions| && conditions[k].field == groups[j].field ::
      MentionedBefore(conditions, groups[i].field, k)
  }

  lemma AddKeepsOrder(groups: seq<Group>, conditions: seq<Condition>, c: Condition)
    requires Groups(groups, conditions) && InOrder(groups, conditions)
    ensures InOrder(Add(groups, c), conditions + [c])
  {
    var r, more := Add(groups, c), conditions + [c];
    forall i, j, k | 0 <= i < j < |r| && 0 <= k < |more| && more[k].field == r[j].field
      ensures MentionedBefore(more, r[i].field, k)
    {
      assert groups[i] in groups && r[i].field == groups[i].field;
      assert Mentioned(conditions, r[i].field);
      if k < |conditions| {
        assert conditions[k] in conditions && Mentioned(conditions, r[j].field);
        assert j < |groups|;
        assert MentionedBefore(conditions, groups[i].field, k);
        var m :| 0 <= m < k && m < |conditions| && conditions[m].field == groups[i].field;
        assert more[m].field == r[i].field;
      } else {
        var d :| d in conditions && d.field == r[i].field;
        var m :| 0 <= m < |conditions| && conditions[m] == d;
        assert more[m].field == r[i].field;
      }
    }
  }

  function OpsOf(conditions: seq<Condition>, field: string): seq<Op> {
    if conditions == [] then []
    else
      var c := conditions[|conditions| - 1];
      OpsOf(conditions[..|conditions| - 1], field) + if c.field == field then [(c.operator, c.value)] else []
  }

  lemma AddKeepsGroups(groups: seq<Group>, conditions: seq<Condition>, c: Condition)
    requires Groups(groups, conditions)
    ensures Groups(Add(groups, c), conditions + [c])
  {
    var r, more, k := Add(groups, c), conditions + [c], Find(groups, c.field);
    assert more[..|more| - 1] == conditions;
    assert forall d :: d in more <==> d in conditions || d == c;
    if k == |groups| {
      assert forall g | g in groups :: g.field != c.field;
      assert !Mentioned(conditions, c.field);
      NoOps(conditions, c.field);
    }
    forall i | 0 <= i < |r|
      ensures r[i].ops != [] && r[i].ops == OpsOf(more, r[i].field)
    {
      if i < |groups| { assert groups[i] in groups; }
    }
    forall f
      ensures (exists g :: g in r && g.field == f) <==> Mentioned(more, f)
    {
      AddMentions(groups, c, f);
      assert Mentioned(more, f) <==> Mentioned(conditions, f) || f == c.field;
    }
  }

  lemma AddMentions(groups: seq<Group>, c: Condition, f: string)
    ensures (exists g :: g in Add(groups, c) && g.field == f) <==> f == c.field || exists g :: g in groups && g.field == f
  {
    var r, k := Add(groups, c), Find(groups, c.field);
    assert r[k] in r && r[k].field == c.field;
    if g :| g in groups && g.field == f {
      var i :| 0 <= i < |groups| && groups[i] == g;
      assert r[i] in r && r[i].field == f;
    }
    if g :| g in r && g.field == f {
      var i :| 0 <= i < |r| && r[i] == g;
      if i != k { assert groups[i] in groups; }
    }
  }

  lemma {:induction false} NoOps(conditions: seq<Condition>, field: string)
    requires !Mentioned(conditions, field)
    ensures OpsOf(conditions, field) == []
  {
    if conditions != [] {
      var init := conditions[..|conditions| - 1];
      assert conditions[|conditions| - 1] in conditions;
      assert forall c | c in init :: c in conditions;
      NoOps(init, field);
    }
  }

  lemma {:induction false} OpsAreConditions(conditions: seq<Condition>, field: string, op: Op)
    ensures op in OpsOf(conditions, field) <==> Condition(field, op.0, op.1) in conditions
  {
    if conditions != [] {
      var init, c := conditions[..|conditions| - 1], conditions[|conditions| - 1];
      OpsAreConditions(init, field, op);
      assert conditions == init + [c];
    }
  }

  /** ---- Parameter names ---- */

  function ParamName(param: Param): string {
    "filter_by_field_" + Decimal(param.index)
  }

  lemma NamesAreDistinct(a: Param, b: Param)
    requires ParamName(a) == ParamName(b)
    ensures a == b
  {
    assert ParamName(a)[16..] == Decimal(a.index) && ParamName(b)[16..] == Decimal(b.index);
    DecimalIsInjective(a.index, b.index);
  }

  /** ---- Compilation ---- */

  method GetOrPiece(field: string, operator: Operator, value: string, ix: nat)
    returns (piece: Option<Piece>, param: Param, bound: string)
    ensures piece.Some? <==> !operator.Unknown?
    ensures piece.Some? ==>
              && piece.value == Piece(field, operator, param)
              && param == FilterByField(ix) && bound == ParamValue(operator, value)
    ensures operator.StartsWith? ==> bound == EscapeLikeParam(value) + "%"
    ensures operator.Contains? ==> bound == "%" + EscapeLikeParam(value) + "%"
    ensures operator.Equals? ==> bound == value
  {
    piece, param, bound := None, FilterByField(ix), "";
    if operator.Unknown? {
      return;
    }
    bound := ParamValue(operator, value);
    piece := Some(Piece(field, operator, param));
  }

  // How many conditions the first k groups hold.
  function Count(groups: seq<Group>): nat {
    if groups == [] then 0 else Count(groups[..|groups| - 1]) + |groups[|groups| - 1].ops|
  }

  // The pieces of one group, numbered from ix, with their parameters bound to its values.
  ghost predicate CompilesOps(field: string, ops: seq<Op>, ix: nat, pieces: seq<Piece>, params: map<Param, string>) {
    && |pieces| == |ops|
    && forall i | 0 <= i < |ops| ::
         && !ops[i].0.Unknown?
         && pieces[i] == Piece(field, ops[i].0, FilterByField(ix + i))
         && pieces[i].param in params && params[pieces[i].param] == ParamValue(ops[i].0, ops[i].1)
  }

  ghost predicate CompilesGroups(groups: seq<Group>, query: Query) {
    && |query.pieces| == |groups|
    && (forall k | 0 <= k < |groups| ::
          CompilesOps(groups[k].field, groups[k].ops, Count(groups[..k]), query.pieces[k], query.params))
    && query.params.Keys == Names(Count(groups))
  }

  function Names(n: nat): set<Param> {
    set i | 0 <= i < n :: FilterByField(i)
  }

  // The disjunction of one field; `next` is the number after its last placeholder.
  method GetOrPieces(g: Group, start: nat, params: map<Param, string>)
    returns (pieces: Option<seq<Piece>>, extended: map<Param, string>, next: nat)
    requires params.Keys == Names(start)
    ensures pieces.Some? <==> forall op | op in g.ops :: !op.0.Unknown?
    ensures pieces.Some? ==>
              && CompilesOps(g.field, g.ops, start, pieces.value, extended)
              && next == start + |g.ops| && extended.Keys == Names(next)
              && forall p | p in params :: p in extended && extended[p] == params[p]
  {
    var orPieces: seq<Piece> := [];
    extended, next := params, start;
    for i := 0 to |g.ops|
      invariant next == start + i
      invariant CompilesOps(g.field, g.ops[..i], start, orPieces, extended)
      invariant extended.Keys == Names(next)
      invariant forall p | p in params :: p in extended && extended[p] == params[p]
    {
      var piece, param, bound := GetOrPiece(g.field, g.ops[i].0, g.ops[i].1, next);
      if piece.None? {
        return None, extended, next;
      }
      OneMoreOp(g.field, g.ops[..i], g.ops[i], start, orPieces, extended);
      assert g.ops[..i + 1] == g.ops[..i] + [g.ops[i]];
      orPieces := orPieces + [piece.value];
      extended := extended[param := bound];
      next := next + 1;
    }
    assert g.ops[..|g.ops|] == g.ops;
    pieces := Some(orPieces);
  }

  lemma OneMoreOp(field: string, ops: seq<Op>, op: Op, start: nat,
                  pieces: seq<Piece>, params: map<Param, string>)
    requires CompilesOps(field, ops, start, pieces, params) && !op.0.Unknown?
    requires params.Keys == Names(start + |ops|)
    ensures var name := FilterByField(start + |ops|);
            var extended := params[name := ParamValue(op.0, op.1)];
            && name !in params
            && extended.Keys == Names(start + |ops| + 1)
            && CompilesOps(field, ops + [op], start, pieces + [Piece(field, op.0, name)], extended)
  {
    NextName(start + |ops|);
  }

  method GetTaskInfoFilters(conditions: seq<Condition>) returns (compiled: Compiled, ghost groups: seq<Group>)
    ensures Groups(groups, conditions) && InOrder(groups, conditions)
    ensures compiled.Success? <==> forall c | c in conditions :: !c.operator.Unknown?
    ensures compiled.Success? ==> CompilesGroups(groups, compiled.query)
  {
    var grouped := ReduceFilters(conditions);
    groups := grouped;
    var params: map<Param, string> := map[];
    var ix := 0;
    var pieces: seq<seq<Piece>> := [];
    for k := 0 to |grouped|
      invariant ix == Count(grouped[..k])
      invariant CompilesGroups(grouped[..k], Query(pieces, params))
    {
      var orPieces, extended, next := GetOrPieces(grouped[k], ix, params);
      if orPieces.None? {
        UnknownOperator(conditions, grouped[k]);
        return BadRequest, groups;
      }
      NextGroup(grouped, k, Query(pieces, params), orPieces.value, extended);
      pieces, params, ix := pieces + [orPieces.value], extended, next;
    }
    assert grouped[..|grouped|] == grouped;
    compiled := Success(Query(pieces, params));
    AllKnown(conditions, groups, compiled.query);
  }

  lemma UnknownOperator(conditions: seq<Condition>, g: Group)
    requires g.ops == OpsOf(conditions, g.field)
    requires exists op :: op in g.ops && op.0.Unknown?
    ensures exists c :: c in conditions && c.operator.Unknown?
  {
    var op :| op in g.ops && op.0.Unknown?;
    OpsAreConditions(conditions, g.field, op);
    assert Condition(g.field, op.0, op.1) in conditions;
  }

  lemma OneMoreGroup(groups: seq<Group>, g: Group, query: Query, pieces: seq<Piece>, params: map<Param, string>)
    requires CompilesGroups(groups, query)
    requires CompilesOps(g.field, g.ops, Count(groups), pieces, params)
    requires params.Keys == Names(Count(groups) + |g.ops|)
    requires forall p | p in query.params :: p in params && params[p] == query.params[p]
    ensures Count(groups + [g]) == Count(groups) + |g.ops|
    ensures CompilesGroups(groups + [g], Query(query.pieces + [pieces], params))
  {
    var more := groups + [g];
    assert more[..|groups|] == groups;
    forall j | 0 <= j < |groups|
      ensures CompilesOps(more[j].field, more[j].ops, Count(more[..j]), (query.pieces + [pieces])[j], params)
    {
      EarlierGroup(groups, g, query, params, j);
    }
  }

  lemma EarlierGroup(groups: seq<Group>, g: Group, query: Query, params: map<Param, string>, j: nat)
    requires j < |groups| && CompilesGroups(groups, query)
    requires forall p | p in query.params :: p in params && params[p] == query.params[p]
    ensures var more := groups + [g];
            CompilesOps(more[j].field, more[j].ops, Count(more[..j]), query.pieces[j], params)
  {
    assert (groups + [g])[..j] == groups[..j];
    assert CompilesOps(groups[j].field, groups[j].ops, Count(groups[..j]), query.pieces[j], query.params);
  }

  lemma NextGroup(groups: seq<Group>, k: nat, query: Query, pieces: seq<Piece>, params: map<Param, string>)
    requires k < |groups| && CompilesGroups(groups[..k], query)
    requires CompilesOps(groups[k].field, groups[k].ops, Count(groups[..k]), pieces, params)
    requires params.Keys == Names(Count(groups[..k]) + |groups[k].ops|)
    requires forall p | p in query.params :: p in params && params[p] == query.params[p]
    ensures Count(groups[..k + 1]) == Count(groups[..k]) + |groups[k].ops|
    ensures CompilesGroups(groups[..k + 1], Query(query.pieces + [pieces], params))
  {
    OneMoreGroup(groups[..k], groups[k], query, pieces, params);
    assert groups[..k + 1] == groups[..k] + [groups[k]];
  }

  // A new number gives a new name.
  lemma NextName(n: nat)
    ensures Names(n + 1) == Names(n) + {FilterByField(n)}
    ensures FilterByField(n) !in Names(n)
  {
  }

  lemma AllKnown(conditions: seq<Condition>, groups: seq<Group>, query: Query)
    requires Groups(groups, conditions) && CompilesGroups(groups, query)
    ensures forall c | c in conditions :: !c.operator.Unknown?
  {
    forall c | c in conditions ensures !c.operator.Unknown? {
      assert Mentioned(conditions, c.field);
      var g :| g in groups && g.field == c.field;
      OpsAreConditions(conditions, c.field, (c.operator, c.value));
      var k :| 0 <= k < |groups| && groups[k] == g;
      var i :| 0 <= i < |g.ops| && g.ops[i] == (c.operator, c.value);
    }
  }

  /** ---- The compiled filter means what was asked for ---- */

  lemma PieceMeansCondition(fold: char -> char, info: Info, c: Condition, param: Param)
    requires FoldsCase(fold) && !c.operator.Unknown?
    ensures PieceHolds(fold, info, Piece(c.field, c.operator, param), ParamValue(c.operator, c.value))
        <==> Meets(fold, info, c)
  {
    var text := Text(info, c.field);
    if c.operator.StartsWith? {
      IStartsWith(fold, text, c.value);
    } else if c.operator.Contains? {
      IContains(fold, text, c.value);
    }
  }

  ghost predicate OpHolds(fold: char -> char, info: Info, p: Piece, params: map<Param, string>) {
    p.param in params && PieceHolds(fold, info, p, params[p.param])
  }

  ghost predicate AnyPieceHolds(fold: char -> char, info: Info, pieces: seq<Piece>, params: map<Param, string>) {
    exists p :: p in pieces && OpHolds(fold, info, p, params)
  }

  ghost predicate AnyConditionMet(fold: char -> char, info: Info, conditions: seq<Condition>, field: string) {
    exists c :: c in conditions && c.field == field && Meets(fold, info, c)
  }

  lemma GroupMeansField(fold: char -> char, info: Info, conditions: seq<Condition>, g: Group, ix: nat,
                        pieces: seq<Piece>, params: map<Param, string>)
    requires FoldsCase(fold)
    requires g.ops == OpsOf(conditions, g.field) && CompilesOps(g.field, g.ops, ix, pieces, params)
    ensures AnyPieceHolds(fold, info, pieces, params) <==> AnyConditionMet(fold, info, conditions, g.field)
  {
    forall i | 0 <= i < |g.ops|
      ensures OpHolds(fold, info, pieces[i], params) <==> Meets(fold, info, Condition(g.field, g.ops[i].0, g.ops[i].1))
    {
      PieceMeansCondition(fold, info, Condition(g.field, g.ops[i].0, g.ops[i].1), pieces[i].param);
    }
    if AnyPieceHolds(fold, info, pieces, params) {
      var p :| p in pieces && OpHolds(fold, info, p, params);
      var i :| 0 <= i < |pieces| && pieces[i] == p;
      var c := Condition(g.field, g.ops[i].0, g.ops[i].1);
      OpsAreConditions(conditions, g.field, g.ops[i]);
      assert c in conditions && Meets(fold, info, c);
    }
    if AnyConditionMet(fold, info, conditions, g.field) {
      var c :| c in conditions && c.field == g.field && Meets(fold, info, c);
      OpsAreConditions(conditions, g.field, (c.operator, c.value));
      var i :| 0 <= i < |g.ops| && g.ops[i] == (c.operator, c.value);
      assert pieces[i] in pieces && OpHolds(fold, info, pieces[i], params);
    }
  }

  lemma CompiledIsBound(groups: seq<Group>, query: Query)
    requires CompilesGroups(groups, query)
    ensures Bound(query)
  {
    forall g, p | g in query.pieces && p in g ensures p.param in query.params {
      var k :| 0 <= k < |query.pieces| && query.pieces[k] == g;
      assert CompilesOps(groups[k].field, groups[k].ops, Count(groups[..k]), query.pieces[k], query.params);
      var i :| 0 <= i < |g| && g[i] == p;
    }
  }

  // The database accepts a row exactly when every field mentioned has a condition that the
  // row meets.
  lemma FilterMeansConditions(fold: char -> char, info: Info, conditions: seq<Condition>, groups: seq<Group>, query: Query)
    requires FoldsCase(fold) && Groups(groups, conditions) && CompilesGroups(groups, query)
    ensures Bound(query)
    ensures Accepts(fold, info, query) <==> Satisfies(fold, info, conditions)
  {
    CompiledIsBound(groups, query);
    forall k | 0 <= k < |groups|
      ensures AnyPieceHolds(fold, info, query.pieces[k], query.params) <==>
              AnyConditionMet(fold, info, conditions, groups[k].field)
    {
      assert CompilesOps(groups[k].field, groups[k].ops, Count(groups[..k]), query.pieces[k], query.params);
      GroupMeansField(fold, info, conditions, groups[k], Count(groups[..k]), query.pieces[k], query.params);
    }
    if Accepts(fold, info, query) {
      AcceptedSatisfies(fold, info, conditions, groups, query);
    }
    if Satisfies(fold, info, conditions) {
      SatisfiedIsAccepted(fold, info, conditions, groups, query);
    }
  }

  // One condition on one field, where `text` is what the row has there: nothing when it lacks the field.
  lemma OneConditionAccepts(fold: char -> char, info: Info, c: Condition, text: string, groups: seq<Group>, query: Query)
    requires FoldsCase(fold) && Groups(groups, [c]) && CompilesGroups(groups, query)
    requires if c.field in info then text == info[c.field] else text == ""
    ensures Bound(query)
    ensures c.operator.StartsWith? ==> (Accepts(fold, info, query) <==> Fold(fold, c.value) <= Fold(fold, text))
    ensures c.operator.Contains? ==> (Accepts(fold, info, query) <==>
              exists i :: 0 <= i <= |text| && Fold(fold, c.value) <= Fold(fold, text)[i..])
    ensures c.operator.Equals? ==> (Accepts(fold, info, query) <==> Fold(fold, c.value) == Fold(fold, text))
  {
    FilterMeansConditions(fold, info, [c], groups, query);
    assert Mentioned([c], c.field);
    assert Satisfies(fold, info, [c]) <==> Meets(fold, info, c);
  }

  // What is known once each group means its field.
  ghost predicate GroupsMeanFields(fold: char -> char, info: Info, conditions: seq<Condition>, groups: seq<Group>, query: Query) {
    && |query.pieces| == |groups|
    && forall k | 0 <= k < |groups| ::
         AnyPieceHolds(fold, info, query.pieces[k], query.params) <==>
         AnyConditionMet(fold, info, conditions, groups[k].field)
  }

  lemma AcceptedSatisfies(fold: char -> char, info: Info, conditions: seq<Condition>, groups: seq<Group>, query: Query)
    requires Groups(groups, conditions) && GroupsMeanFields(fold, info, conditions, groups, query)
    requires Bound(query) && Accepts(fold, info, query)
    ensures Satisfies(fold, info, conditions)
  {
    forall f | Mentioned(conditions, f)
      ensures AnyConditionMet(fold, info, conditions, f)
    {
      var g :| g in groups && g.field == f;
      var k :| 0 <= k < |groups| && groups[k] == g;
      assert query.pieces[k] in query.pieces;
      assert AnyPieceHolds(fold, info, query.pieces[k], query.params);
    }
  }

  lemma SatisfiedIsAccepted(fold: char -> char, info: Info, conditions: seq<Condition>, groups: seq<Group>, query: Query)
    requires Groups(groups, conditions) && GroupsMeanFields(fold, info, conditions, groups, query)
    requires Bound(query) && Satisfies(fold, info, conditions)
    ensures Accepts(fold, info, query)
  {
    forall g | g in query.pieces
      ensures AnyPieceHolds(fold, info, g, query.params)
    {
      var k :| 0 <= k < |query.pieces| && query.pieces[k] == g;
      assert groups[k] in groups;
      assert Mentioned(conditions, groups[k].field);
      assert AnyConditionMet(fold, info, conditions, groups[k].field);
    }
  }

  // The order in which the conditions arrive does not matter, nor do repetitions.
  lemma OrderDoesNotMatter(fold: char -> char, info: Info, conditions1: seq<Condition>, groups1: seq<Group>, query1: Query,
                           conditions2: seq<Condition>, groups2: seq<Group>, query2: Query)
    requires FoldsCase(fold)
    requires Groups(groups1, conditions1) && CompilesGroups(groups1, query1)
    requires Groups(groups2, conditions2) && CompilesGroups(groups2, query2)
    requires forall c :: c in conditions1 <==> c in conditions2
    ensures Bound(query1) && Bound(query2)
    ensures Accepts(fold, info, query1) <==> Accepts(fold, info, query2)
  {
    FilterMeansConditions(fold, info, conditions1, groups1, query1);
    FilterMeansConditions(fold, info, conditions2, groups2, query2);
    assert forall f :: Mentioned(conditions1, f) <==> Mentioned(conditions2, f);
  }

  // No two placeholders of the filter share a name.
  lemma PlaceholdersAreDistinct(groups: seq<Group>, query: Query, k1: int, i1: int, k2: int, i2: int)
    requires CompilesGroups(groups, query)
    requires 0 <= k1 < |query.pieces| && 0 <= i1 < |query.pieces[k1]|
    requires 0 <= k2 < |query.pieces| && 0 <= i2 < |query.pieces[k2]|
    requires ParamName(query.pieces[k1][i1].param) == ParamName(query.pieces[k2][i2].param)
    ensures k1 == k2 && i1 == i2
  {
    NamesAreDistinct(query.pieces[k1][i1].param, query.pieces[k2][i2].param);
    PieceName(groups, query, k1, i1);
    PieceName(groups, query, k2, i2);
    NumbersAreDistinct(groups, k1, i1, k2, i2);
  }

  lemma NumbersAreDistinct(groups: seq<Group>, k1: int, i1: int, k2: int, i2: int)
    requires 0 <= k1 < |groups| && 0 <= i1 < |groups[k1].ops|
    requires 0 <= k2 < |groups| && 0 <= i2 < |groups[k2].ops|
    requires Count(groups[..k1]) + i1 == Count(groups[..k2]) + i2
    ensures k1 == k2 && i1 == i2
  {
    if k1 < k2 { CountGrows(groups, k1, k2); }
    if k2 < k1 { CountGrows(groups, k2, k1); }
  }

  lemma PieceName(groups: seq<Group>, query: Query, k: int, i: int)
    requires CompilesGroups(groups, query)
    requires 0 <= k < |query.pieces| && 0 <= i < |query.pieces[k]|
    ensures i < |groups[k].ops| && query.pieces[k][i].param == FilterByField(Count(groups[..k]) + i)
  {
    assert CompilesOps(groups[k].field, groups[k].ops, Count(groups[..k]), query.pieces[k], query.params);
  }

  // There are as many bindings as placeholders.
  lemma BindingsAreCounted(groups: seq<Group>, query: Query)
    requires CompilesGroups(groups, query)
    ensures |query.params| == Count(groups)
  {
    NamesSize(Count(groups));
    assert |query.params.Keys| == |query.params|;
  }

  lemma {:induction false} CountGrows(groups: seq<Group>, k1: int, k2: int)
    requires 0 <= k1 < k2 <= |groups|
    ensures Count(groups[..k1]) + |groups[k1].ops| <= Count(groups[..k2])
  {
    assert groups[..k2][..k2 - 1] == groups[..k2 - 1];
    if k1 < k2 - 1 { CountGrows(groups, k1, k2 - 1); }
  }

  lemma {:induction false} NamesSize(n: nat)
    ensures |Names(n)| == n
  {
    if n > 0 {
      NextName(n - 1);
      NamesSize(n - 1);
    }
  }
}
