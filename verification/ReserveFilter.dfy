/** The SQL filter on reserved categories: its text, the text's meaning, and what rows it accepts. */
module ReserveFilter {
  import opened Options
  import opened ReserveKey
  import opened Strings

  /** ---- The text ---- */

  function Quote(value: string): string {
    Replace(value, '\'', "''")
  }

  function Condition(pair: Pair): string {
    "task.info->>'" + pair.0 + "' = '" + Quote(pair.1) + "'"
  }

  function JoinWith(separator: string, parts: seq<string>): string {
    if parts == [] then ""
    else if |parts| == 1 then parts[0]
    else parts[0] + separator + JoinWith(separator, parts[1..])
  }

  lemma JoinMore(separator: string, first: string, parts: seq<string>, rest: string)
    requires parts != []
    ensures JoinWith(separator, [first] + parts) + rest == first + (separator + (JoinWith(separator, parts) + rest))
  {
    assert ([first] + parts)[1..] == parts;
    var more := JoinWith(separator, parts);
    assert first + separator + more + rest == first + (separator + (more + rest));
  }

  lemma JoinOne(separator: string, first: string)
    ensures JoinWith(separator, [first]) == first
  {
  }

  function Conditions(pairs: seq<Pair>): (r: seq<string>)
    ensures |r| == |pairs|
  {
    if pairs == [] then [] else [Condition(pairs[0])] + Conditions(pairs[1..])
  }

  function Group(pairs: seq<Pair>): string {
    "(" + JoinWith(" AND ", Conditions(pairs)) + ")"
  }

  function Groups(categories: seq<seq<Pair>>): (r: seq<string>)
    ensures |r| == |categories|
  {
    if categories == [] then [] else [Group(categories[0])] + Groups(categories[1..])
  }

  function FilterText(categories: seq<seq<Pair>>, exclude: bool): string {
    if categories == [] then ""
    else " AND (" + JoinWith(" OR ", Groups(categories)) + ") " + if exclude then "IS NOT TRUE " else ""
  }

  lemma JoinTwo(separator: string, first: string, second: string)
    ensures JoinWith(separator, [first, second]) == first + separator + second
  {
    assert [first, second][1..] == [second];
    JoinOne(separator, second);
  }

  lemma GroupIs(a: Pair, b: Pair)
    ensures Group([a]) == "(" + Condition(a) + ")"
    ensures Group([a, b]) == "(" + (Condition(a) + " AND " + Condition(b)) + ")"
  {
    assert [a][1..] == [] && [a, b][1..] == [b] && [b][1..] == [];
    assert Conditions([b]) == [Condition(b)] && Conditions([a]) == [Condition(a)];
    assert Conditions([a, b]) == [Condition(a), Condition(b)];
    JoinOne(" AND ", Condition(a));
    JoinTwo(" AND ", Condition(a), Condition(b));
  }

  // The text for two categories, with and without exclusion, and for none.
  lemma FilterTextIs(first: seq<Pair>, second: seq<Pair>, exclude: bool)
    ensures FilterText([], exclude) == ""
    ensures FilterText([first, second], exclude) ==
            " AND (" + (Group(first) + " OR " + Group(second)) + ") " + if exclude then "IS NOT TRUE " else ""
  {
    assert [first, second][1..] == [second] && [second][1..] == [];
    assert Groups([second]) == [Group(second)];
    assert Groups([first, second]) == [Group(first), Group(second)];
    JoinTwo(" OR ", Group(first), Group(second));
  }

  lemma QuotedApostrophe()
    ensures Quote("it's") == "it''s"
  {
    assert Quote("s") == "s";
    assert "'s"[1..] == "s" && Quote("'s") == "''s";
    assert "t's"[1..] == "'s" && Quote("t's") == "t''s";
    assert "it's"[1..] == "t's";
  }

  lemma ConditionIs()
    ensures Condition(("field", "it's")) == "task.info->>'field' = 'it''s'"
  {
    QuotedApostrophe();
  }

  /** ---- Building the text ---- */

  // The keys that the regular expression matches, with the category each one names.
  function Matching(project: nat, keys: seq<string>): seq<string> {
    if keys == [] then []
    else (if Search(Prefix(project), keys[0], 0).Some? then [keys[0]] else []) + Matching(project, keys[1..])
  }

  function Named(project: nat, keys: seq<string>): seq<string> {
    if keys == [] then []
    else
      var found := Search(Prefix(project), keys[0], 0);
      (if found.Some? then [found.value] else []) + Named(project, keys[1..])
  }

  // Distinct elements, in the order in which they first appear after those of `seen`.
  function Distinct(seen: seq<string>, s: seq<string>): seq<string>
    decreases |s|
  {
    if s == [] then seen else Distinct(if s[0] in seen then seen else seen + [s[0]], s[1..])
  }

  function AllPairs(categories: seq<string>): Option<seq<seq<Pair>>> {
    if categories == [] then Some([])
    else
      var first := Pairs(Split(categories[0]));
      var rest := AllPairs(categories[1..]);
      if first.None? || rest.None? then None else Some([first.value] + rest.value)
  }

  lemma {:induction false} AllPairsSnoc(categories: seq<string>, c: string)
    ensures AllPairs(categories + [c]) ==
            if AllPairs(categories).None? || Pairs(Split(c)).None? then None
            else Some(AllPairs(categories).value + [Pairs(Split(c)).value])
  {
    if categories == [] {
      assert categories + [c] == [c] && [c][1..] == [];
      var last := Pairs(Split(c));
      if last.Some? { assert [last.value] + [] == [] + [last.value]; }
    } else {
      AllPairsSnoc(categories[1..], c);
      assert (categories + [c])[1..] == categories[1..] + [c];
      var first, rest, last := Pairs(Split(categories[0])), AllPairs(categories[1..]), Pairs(Split(c));
      if first.Some? && rest.Some? && last.Some? {
        assert [first.value] + (rest.value + [last.value]) == [first.value] + rest.value + [last.value];
      }
    }
  }

  lemma {:induction false} GroupsSnoc(categories: seq<seq<Pair>>, c: seq<Pair>)
    ensures Groups(categories + [c]) == Groups(categories) + [Group(c)]
  {
    if categories != [] {
      GroupsSnoc(categories[1..], c);
      assert (categories + [c])[1..] == categories[1..] + [c];
    }
  }

  lemma {:induction false} ConditionsSnoc(pairs: seq<Pair>, p: Pair)
    ensures Conditions(pairs + [p]) == Conditions(pairs) + [Condition(p)]
  {
    if pairs != [] {
      ConditionsSnoc(pairs[1..], p);
      assert (pairs + [p])[1..] == pairs[1..] + [p];
    }
  }

  lemma {:induction false} DistinctExtends(seen: seq<string>, s: seq<string>)
    ensures seen <= Distinct(seen, s)
    decreases |s|
  {
    if s != [] { DistinctExtends(if s[0] in seen then seen else seen + [s[0]], s[1..]); }
  }

  lemma {:induction false} AllPairsOfPrefix(categories: seq<string>, n: nat)
    requires n <= |categories| && AllPairs(categories).Some?
    ensures AllPairs(categories[..n]).Some?
  {
    if n > 0 {
      AllPairsOfPrefix(categories[1..], n - 1);
      assert categories[..n][1..] == categories[1..][..n - 1];
    }
  }

  // The conditions of one category; None is the IndexError of an odd number of segments.
  method FilterList(category: string) returns (conditions: Option<seq<string>>, ghost pairs: seq<Pair>)
    ensures Pairs(Split(category)) == if conditions.None? then None else Some(pairs)
    ensures conditions.Some? <==> Pairs(Split(category)).Some?
    ensures conditions.Some? ==> conditions.value == Conditions(Pairs(Split(category)).value)
  {
    var segments := Split(category);
    var list: seq<string> := [];
    pairs := [];
    PairsIffEven(segments);
    var i := 0;
    while i < |segments|
      invariant 0 <= i <= |segments| && i % 2 == 0
      invariant list == Conditions(pairs) && segments[..i] == Flatten(pairs)
    {
      if i + 1 == |segments| {
        return None, pairs;
      }
      var pair := (segments[i], segments[i + 1]);
      ConditionsSnoc(pairs, pair);
      FlattenSnoc(pairs, pair);
      list, pairs := list + [Condition(pair)], pairs + [pair];
      i := i + 2;
    }
    assert segments[..i] == segments;
    PairsFlatten(pairs);
    conditions := Some(list);
  }

  datatype Built = Built(filters: string, categoryKeys: seq<string>) | IndexError

  // What is built: the distinct categories named by the keys, in order, with the keys themselves.
  function Expected(project: nat, keys: seq<string>, exclude: bool): Built {
    if project == 0 || keys == [] then Built("", [])
    else
      var categories := AllPairs(Distinct([], Named(project, keys)));
      if categories.None? then IndexError
      else Built(FilterText(categories.value, exclude), Matching(project, keys))
  }

  // What one more key adds.
  lemma OneKey(project: nat, keys: seq<string>, i: nat)
    requires i < |keys|
    ensures var found := Search(Prefix(project), keys[i], 0);
      var named, matching := Named(project, keys[i + 1..]), Matching(project, keys[i + 1..]);
      && Named(project, keys[i..]) == (if found.Some? then [found.value] + named else named)
      && Matching(project, keys[i..]) == (if found.Some? then [keys[i]] + matching else matching)
  {
    assert keys[i..][0] == keys[i] && keys[i..][1..] == keys[i + 1..];
  }

  lemma OneFurther(found: seq<string>, key: string, rest: seq<string>)
    ensures found + ([key] + rest) == (found + [key]) + rest
  {
  }

  lemma OneName(names: seq<string>, name: string, rest: seq<string>)
    ensures Distinct(names, [name] + rest) == Distinct(if name in names then names else names + [name], rest)
  {
    assert ([name] + rest)[1..] == rest;
  }

  lemma NewCategory(names: seq<string>, name: string, categories: seq<seq<Pair>>, texts: seq<string>,
                    pairs: seq<Pair>, conditions: seq<string>)
    requires AllPairs(names) == Some(categories) && texts == Groups(categories)
    requires Pairs(Split(name)) == Some(pairs) && conditions == Conditions(pairs)
    ensures AllPairs(names + [name]) == Some(categories + [pairs])
    ensures texts + ["(" + JoinWith(" AND ", conditions) + ")"] == Groups(categories + [pairs])
  {
    AllPairsSnoc(names, name);
    GroupsSnoc(categories, pairs);
  }

  // A project id of zero stands for a missing one. The dictionary of filters is kept as its keys
  // and its values, in insertion order.
  method ReserveTaskSqlFilters(project: nat, keys: seq<string>, exclude: bool) returns (built: Built)
    ensures built == Expected(project, keys, exclude)
  {
    if project == 0 || |keys| == 0 {
      return Built("", []);
    }
    var categoryKeys: seq<string>, names: seq<string>, texts: seq<string> := [], [], [];
    ghost var all, categories := Distinct([], Named(project, keys)), [];
    assert keys[0..] == keys;
    var i := 0;
    while i < |keys|
      invariant 0 <= i <= |keys|
      invariant categoryKeys + Matching(project, keys[i..]) == Matching(project, keys)
      invariant Distinct(names, Named(project, keys[i..])) == all
      invariant AllPairs(names) == Some(categories) && texts == Groups(categories)
    {
      OneKey(project, keys, i);
      var key := keys[i];
      ghost var rest := Named(project, keys[i + 1..]);
      var category := Search(Prefix(project), key, 0);
      i := i + 1;
      if category.None? {
        continue;
      }
      OneName(names, category.value, rest);
      OneFurther(categoryKeys, key, Matching(project, keys[i..]));
      categoryKeys := categoryKeys + [key];
      if category.value in names {
        continue;
      }
      var conditions, pairs := FilterList(category.value);
      if conditions.None? {
        AllPairsSnoc(names, category.value);
        IndexErrorIsExpected(names + [category.value], rest, all);
        return IndexError;
      }
      NewCategory(names, category.value, categories, texts, pairs, conditions.value);
      names := names + [category.value];
      texts := texts + ["(" + JoinWith(" AND ", conditions.value) + ")"];
      categories := categories + [pairs];
    }
    assert keys[i..] == [];
    AllPairsLength(names);
    var filters := "";
    if names != [] {
      var excludeClause := if exclude then "IS NOT TRUE " else "";
      filters := " AND (" + JoinWith(" OR ", texts) + ") " + excludeClause;
    }
    built := Built(filters, categoryKeys);
  }

  lemma {:induction false} AllPairsLength(categories: seq<string>)
    requires AllPairs(categories).Some?
    ensures |AllPairs(categories).value| == |categories|
  {
    if categories != [] { AllPairsLength(categories[1..]); }
  }

  lemma IndexErrorIsExpected(names: seq<string>, rest: seq<string>, all: seq<string>)
    requires Distinct(names, rest) == all && AllPairs(names).None?
    ensures AllPairs(all).None?
  {
    DistinctExtends(names, rest);
    assert all[..|names|] == names;
    if AllPairs(all).Some? {
      AllPairsOfPrefix(all, |names|);
    }
  }

  /** ---- Reading the text back ---- */

  // A string literal after its opening quote: a doubled quote stands for one.
  function ReadLiteral(s: string): (r: Option<(string, string)>)
    ensures r.Some? ==> |r.value.1| < |s|
  {
    if s == "" then None
    else if s[0] == '\'' then
      if |s| > 1 && s[1] == '\'' then
        var more := ReadLiteral(s[2..]);
        if more.None? then None else Some(("'" + more.value.0, more.value.1))
      else Some(("", s[1..]))
    else
      var more := ReadLiteral(s[1..]);
      if more.None? then None else Some(([s[0]] + more.value.0, more.value.1))
  }

  predicate NoQuoteAhead(s: string) {
    s == "" || s[0] != '\''
  }

  lemma {:induction false} LiteralReadsBack(v: string, rest: string)
    requires NoQuoteAhead(rest)
    ensures ReadLiteral(Quote(v) + "'" + rest) == Some((v, rest))
  {
    var s := Quote(v) + "'" + rest;
    if v == "" {
      assert s[1..] == rest;
    } else {
      LiteralReadsBack(v[1..], rest);
      var more := Quote(v[1..]) + "'" + rest;
      assert v == [v[0]] + v[1..];
      if v[0] == '\'' {
        assert s[2..] == more;
      } else {
        assert s[1..] == more;
      }
    }
  }

  lemma {:induction false} LiteralMeans(s: string)
    requires ReadLiteral(s).Some?
    ensures s == Quote(ReadLiteral(s).value.0) + "'" + ReadLiteral(s).value.1
  {
    if s[0] == '\'' {
      if |s| > 1 && s[1] == '\'' {
        LiteralMeans(s[2..]);
        assert s == "''" + s[2..];
        assert ("'" + ReadLiteral(s[2..]).value.0)[1..] == ReadLiteral(s[2..]).value.0;
      }
    } else {
      LiteralMeans(s[1..]);
      assert s == [s[0]] + s[1..];
      assert ([s[0]] + ReadLiteral(s[1..]).value.0)[1..] == ReadLiteral(s[1..]).value.0;
    }
  }

  lemma {:induction false} QuoteGrows(v: string)
    ensures |Quote(v)| >= |v|
    ensures |Quote(v)| == |v| <==> '\'' !in v
    ensures '\'' !in v ==> Quote(v) == v
  {
    if v != "" {
      QuoteGrows(v[1..]);
      assert v == [v[0]] + v[1..];
    }
  }

  // A field name is written without quoting: it reads back exactly when it has no quote in it.
  lemma FieldReadsBackIff(field: string, rest: string)
    requires NoQuoteAhead(rest)
    ensures ReadLiteral(field + "'" + rest) == Some((field, rest)) <==> '\'' !in field
  {
    QuoteGrows(field);
    if '\'' !in field {
      LiteralReadsBack(field, rest);
    }
    if ReadLiteral(field + "'" + rest) == Some((field, rest)) {
      LiteralMeans(field + "'" + rest);
    }
  }

  // What is left of s after x.
  function After(x: string, s: string): Option<string> {
    if x <= s then Some(s[|x|..]) else None
  }

  lemma AfterIs(x: string, rest: string)
    ensures After(x, x + rest) == Some(rest)
  {
  }

  function ReadCondition(s: string): (r: Option<(Pair, string)>)
    ensures r.Some? ==> |r.value.1| < |s|
  {
    var s1 := After("task.info->>'", s);
    if s1.None? then None
    else
      var field := ReadLiteral(s1.value);
      if field.None? then None
      else
        var s2 := After(" = '", field.value.1);
        if s2.None? then None
        else
          var value := ReadLiteral(s2.value);
          if value.None? then None else Some(((field.value.0, value.value.0), value.value.1))
  }

  lemma ConditionText(pair: Pair, rest: string)
    ensures Condition(pair) + rest == "task.info->>'" + (pair.0 + "'" + (" = '" + (Quote(pair.1) + "'" + rest)))
  {
  }

  lemma ConditionReadsBack(pair: Pair, rest: string)
    requires '\'' !in pair.0 && NoQuoteAhead(rest)
    ensures ReadCondition(Condition(pair) + rest) == Some((pair, rest))
  {
    var value := Quote(pair.1) + "'" + rest;
    var field := pair.0 + "'" + (" = '" + value);
    ConditionText(pair, rest);
    AfterIs("task.info->>'", field);
    FieldReadsBackIff(pair.0, " = '" + value);
    AfterIs(" = '", value);
    LiteralReadsBack(pair.1, rest);
  }

  function ReadConditions(s: string): (r: Option<(seq<Pair>, string)>)
    ensures r.Some? ==> |r.value.1| < |s|
    decreases |s|
  {
    var first := ReadCondition(s);
    if first.None? then None
    else
      var next := After(" AND ", first.value.1);
      if next.None? then Some(([first.value.0], first.value.1))
      else
        var more := ReadConditions(next.value);
        if more.None? then None else Some(([first.value.0] + more.value.0, more.value.1))
  }

  ghost predicate PlainFields(pairs: seq<Pair>) {
    forall p | p in pairs :: '\'' !in p.0
  }

  lemma {:induction false} ConditionsReadBack(pairs: seq<Pair>, rest: string)
    requires pairs != [] && PlainFields(pairs) && ")" <= rest
    ensures ReadConditions(JoinWith(" AND ", Conditions(pairs)) + rest) == Some((pairs, rest))
  {
    var first := pairs[0];
    assert first in pairs;
    if |pairs| == 1 {
      assert Conditions(pairs) == [Condition(first)];
      JoinOne(" AND ", Condition(first));
      LastCondition(first, rest);
      assert pairs == [first];
    } else {
      var parts := Conditions(pairs[1..]);
      assert forall p | p in pairs[1..] :: p in pairs;
      ConditionsReadBack(pairs[1..], rest);
      JoinMore(" AND ", Condition(first), parts, rest);
      MoreConditions(first, pairs[1..], JoinWith(" AND ", parts) + rest, rest);
      assert pairs == [first] + pairs[1..];
    }
  }

  lemma LastCondition(pair: Pair, rest: string)
    requires '\'' !in pair.0 && ")" <= rest
    ensures ReadConditions(Condition(pair) + rest) == Some(([pair], rest))
  {
    assert rest[0] == ')';
    ConditionReadsBack(pair, rest);
    assert " AND "[0] == ' ';
    assert After(" AND ", rest) == None;
  }

  lemma MoreConditions(pair: Pair, pairs: seq<Pair>, more: string, rest: string)
    requires '\'' !in pair.0 && ReadConditions(more) == Some((pairs, rest))
    ensures ReadConditions(Condition(pair) + (" AND " + more)) == Some(([pair] + pairs, rest))
  {
    assert (" AND " + more)[0] == ' ';
    ConditionReadsBack(pair, " AND " + more);
    AfterIs(" AND ", more);
  }

  function ReadGroup(s: string): (r: Option<(seq<Pair>, string)>)
    ensures r.Some? ==> |r.value.1| < |s|
  {
    var inside := After("(", s);
    if inside.None? then None
    else
      var pairs := ReadConditions(inside.value);
      if pairs.None? then None
      else
        var rest := After(")", pairs.value.1);
        if rest.None? then None else Some((pairs.value.0, rest.value))
  }

  lemma GroupReadsBack(pairs: seq<Pair>, rest: string)
    requires pairs != [] && PlainFields(pairs)
    ensures ReadGroup(Group(pairs) + rest) == Some((pairs, rest))
  {
    var text := JoinWith(" AND ", Conditions(pairs)) + (")" + rest);
    assert Group(pairs) + rest == "(" + text;
    AfterIs("(", text);
    ConditionsReadBack(pairs, ")" + rest);
    AfterIs(")", rest);
  }

  function ReadGroups(s: string): (r: Option<(seq<seq<Pair>>, string)>)
    ensures r.Some? ==> |r.value.1| < |s|
    decreases |s|
  {
    var first := ReadGroup(s);
    if first.None? then None
    else
      var next := After(" OR ", first.value.1);
      if next.None? then Some(([first.value.0], first.value.1))
      else
        var more := ReadGroups(next.value);
        if more.None? then None else Some(([first.value.0] + more.value.0, more.value.1))
  }

  ghost predicate PlainCategories(categories: seq<seq<Pair>>) {
    forall c | c in categories :: c != [] && PlainFields(c)
  }

  lemma RestIsPlain(categories: seq<seq<Pair>>)
    requires categories != [] && PlainCategories(categories)
    ensures PlainCategories(categories[1..]) && categories[0] != [] && PlainFields(categories[0])
  {
    assert categories[0] in categories;
    assert forall c | c in categories[1..] :: c in categories;
  }

  lemma {:induction false} GroupsReadBack(categories: seq<seq<Pair>>, rest: string)
    requires categories != [] && PlainCategories(categories) && ")" <= rest
    ensures ReadGroups(JoinWith(" OR ", Groups(categories)) + rest) == Some((categories, rest))
  {
    var first := categories[0];
    RestIsPlain(categories);
    if |categories| == 1 {
      assert Groups(categories) == [Group(first)];
      JoinOne(" OR ", Group(first));
      LastGroup(first, rest);
      assert categories == [first];
    } else {
      GroupsReadBack(categories[1..], rest);
      OneMoreGroup(first, categories[1..], rest);
      assert categories == [first] + categories[1..];
    }
  }

  lemma OneMoreGroup(first: seq<Pair>, others: seq<seq<Pair>>, rest: string)
    requires first != [] && PlainFields(first) && others != []
    requires ReadGroups(JoinWith(" OR ", Groups(others)) + rest) == Some((others, rest))
    ensures ReadGroups(JoinWith(" OR ", Groups([first] + others)) + rest) == Some(([first] + others, rest))
  {
    assert ([first] + others)[1..] == others;
    JoinMore(" OR ", Group(first), Groups(others), rest);
    MoreGroups(first, others, JoinWith(" OR ", Groups(others)) + rest, rest);
  }

  lemma LastGroup(pairs: seq<Pair>, rest: string)
    requires pairs != [] && PlainFields(pairs) && ")" <= rest
    ensures ReadGroups(Group(pairs) + rest) == Some(([pairs], rest))
  {
    assert rest[0] == ')';
    GroupReadsBack(pairs, rest);
    assert " OR "[0] == ' ';
    assert After(" OR ", rest) == None;
  }

  lemma MoreGroups(pairs: seq<Pair>, categories: seq<seq<Pair>>, more: string, rest: string)
    requires pairs != [] && PlainFields(pairs) && ReadGroups(more) == Some((categories, rest))
    ensures ReadGroups(Group(pairs) + (" OR " + more)) == Some(([pairs] + categories, rest))
  {
    GroupReadsBack(pairs, " OR " + more);
    AfterIs(" OR ", more);
  }

  datatype Filter = NoFilter | AnyOfGroups(categories: seq<seq<Pair>>, exclude: bool)

  function ReadFilter(s: string): Option<Filter> {
    if s == "" then Some(NoFilter)
    else
      var inside := After(" AND (", s);
      if inside.None? then None
      else
        var groups := ReadGroups(inside.value);
        if groups.None? then None
        else
          var rest := After(") ", groups.value.1);
          if rest == Some("") then Some(AnyOfGroups(groups.value.0, false))
          else if rest == Some("IS NOT TRUE ") then Some(AnyOfGroups(groups.value.0, true))
          else None
  }

  // The text that is built reads back as the categories it was built from, whatever the values hold.
  lemma FilterReadsBack(categories: seq<seq<Pair>>, exclude: bool)
    requires PlainCategories(categories)
    ensures ReadFilter(FilterText(categories, exclude)) ==
            Some(if categories == [] then NoFilter else AnyOfGroups(categories, exclude))
  {
    if categories != [] {
      var clause := if exclude then "IS NOT TRUE " else "";
      var text := JoinWith(" OR ", Groups(categories)) + (") " + clause);
      assert FilterText(categories, exclude) == " AND (" + text;
      AfterIs(" AND (", text);
      GroupsReadBack(categories, ") " + clause);
      AfterIs(") ", clause);
    }
  }

  /** ---- Meaning ---- */

  datatype Truth = True | False | Unknown

  function And(a: Truth, b: Truth): Truth {
    if a == False || b == False then False else if a == True && b == True then True else Unknown
  }

  function Or(a: Truth, b: Truth): Truth {
    if a == True || b == True then True else if a == False && b == False then False else Unknown
  }

  function Not(a: Truth): Truth {
    match a
    case True => False
    case False => True
    case Unknown => Unknown
  }

  // task.info->>'field' = 'value', where a missing field is null.
  function Equals(info: map<string, string>, pair: Pair): Truth {
    if pair.0 !in info then Unknown else if info[pair.0] == pair.1 then True else False
  }

  function AllOf(info: map<string, string>, pairs: seq<Pair>): Truth {
    if pairs == [] then True else And(Equals(info, pairs[0]), AllOf(info, pairs[1..]))
  }

  function AnyOf(info: map<string, string>, categories: seq<seq<Pair>>): Truth {
    if categories == [] then False else Or(AllOf(info, categories[0]), AnyOf(info, categories[1..]))
  }

  // Whether the database keeps a row.
  predicate Keeps(info: map<string, string>, filter: Filter) {
    match filter
    case NoFilter => true
    case AnyOfGroups(categories, exclude) => (AnyOf(info, categories) == True) != exclude
  }

  ghost predicate Agrees(info: map<string, string>, pairs: seq<Pair>) {
    forall p | p in pairs :: p.0 in info && info[p.0] == p.1
  }

  lemma {:induction false} AllOfIsTrueIff(info: map<string, string>, pairs: seq<Pair>)
    ensures AllOf(info, pairs) == True <==> Agrees(info, pairs)
  {
    if pairs != [] {
      AllOfIsTrueIff(info, pairs[1..]);
      assert pairs == [pairs[0]] + pairs[1..];
    }
  }

  lemma {:induction false} AnyOfIsTrueIff(info: map<string, string>, categories: seq<seq<Pair>>)
    ensures AnyOf(info, categories) == True <==> exists c :: c in categories && Agrees(info, c)
  {
    if categories != [] {
      AllOfIsTrueIff(info, categories[0]);
      AnyOfIsTrueIff(info, categories[1..]);
      assert categories == [categories[0]] + categories[1..];
      if c :| c in categories && Agrees(info, c) {
        assert c == categories[0] || c in categories[1..];
      }
    }
  }

  // Whether some field of the category is there and differs.
  ghost predicate Differs(info: map<string, string>, pairs: seq<Pair>) {
    exists p :: p in pairs && p.0 in info && info[p.0] != p.1
  }

  lemma {:induction false} AllOfIsFalseIff(info: map<string, string>, pairs: seq<Pair>)
    ensures AllOf(info, pairs) == False <==> Differs(info, pairs)
  {
    if pairs != [] {
      AllOfIsFalseIff(info, pairs[1..]);
      assert pairs == [pairs[0]] + pairs[1..];
      if p :| p in pairs && p.0 in info && info[p.0] != p.1 {
        assert p == pairs[0] || p in pairs[1..];
      }
    }
  }

  // It is false exactly when every category differs in some field that is there; else, where no category
  // agrees, it is unknown.
  lemma {:induction false} AnyOfIsFalseIff(info: map<string, string>, categories: seq<seq<Pair>>)
    ensures AnyOf(info, categories) == False <==> forall c | c in categories :: Differs(info, c)
  {
    if categories != [] {
      AllOfIsFalseIff(info, categories[0]);
      AnyOfIsFalseIff(info, categories[1..]);
      assert categories == [categories[0]] + categories[1..];
      if forall c | c in categories :: Differs(info, c) {
        assert categories[0] in categories && forall c | c in categories[1..] :: c in categories;
      }
    }
  }

  // Negating with NOT would also lose the rows on which the condition is unknown.
  lemma NotKeepsFewer(info: map<string, string>, categories: seq<seq<Pair>>)
    ensures Not(AnyOf(info, categories)) == True <==>
            Keeps(info, AnyOfGroups(categories, true)) && AnyOf(info, categories) != Unknown
  {
  }

  lemma MissingFieldIsKept(field: string, value: string)
    ensures Keeps(map[], AnyOfGroups([[(field, value)]], true))
    ensures Not(AnyOf(map[], [[(field, value)]])) != True
  {
    assert AllOf(map[], [(field, value)]) == Unknown;
  }

  /** ---- Which keys count, and when building fails ---- */

  lemma {:induction false} NamedHave(project: nat, keys: seq<string>, n: string)
    ensures n in Named(project, keys) <==> exists k :: k in keys && Search(Prefix(project), k, 0) == Some(n)
  {
    if keys != [] {
      var rest := keys[1..];
      NamedHave(project, rest, n);
      assert forall k :: k in keys <==> k == keys[0] || k in rest by { assert keys == [keys[0]] + rest; }
      var found := Search(Prefix(project), keys[0], 0);
      assert Named(project, keys) == (if found.Some? then [found.value] else []) + Named(project, rest);
      if found == Some(n) { assert keys[0] in keys; }
    }
  }

  lemma {:induction false} MatchingHave(project: nat, keys: seq<string>, k: string)
    ensures k in Matching(project, keys) <==> k in keys && Search(Prefix(project), k, 0).Some?
  {
    if keys != [] {
      MatchingHave(project, keys[1..], k);
      assert keys == [keys[0]] + keys[1..];
    }
  }

  lemma MatchingFirst(project: nat, key: string, rest: seq<string>)
    ensures Matching(project, [key] + rest) ==
              (if Search(Prefix(project), key, 0).Some? then [key] else []) + Matching(project, rest)
  {
    assert ([key] + rest)[1..] == rest;
  }

  // The keys that match stay in the order in which they are given.
  lemma {:induction false} MatchingOfBoth(project: nat, a: seq<string>, b: seq<string>)
    ensures Matching(project, a + b) == Matching(project, a) + Matching(project, b)
  {
    if a == [] {
      assert a + b == b;
    } else {
      MatchingOfBoth(project, a[1..], b);
      assert a == [a[0]] + a[1..] && a + b == [a[0]] + (a[1..] + b);
      MatchingFirst(project, a[0], a[1..]);
      MatchingFirst(project, a[0], a[1..] + b);
    }
  }

  lemma {:induction false} AllPairsIff(names: seq<string>)
    ensures AllPairs(names).Some? <==> forall n | n in names :: |Split(n)| % 2 == 0
    ensures AllPairs(names).Some? ==> |AllPairs(names).value| == |names|
  {
    if names != [] {
      PairsIffEven(Split(names[0]));
      AllPairsIff(names[1..]);
      assert names == [names[0]] + names[1..];
      assert names[0] in names && forall n | n in names[1..] :: n in names;
      var first := Pairs(Split(names[0]));
      assert AllPairs(names).Some? <==> first.Some? && AllPairs(names[1..]).Some?;
    }
  }

  ghost predicate NoneRepeated(s: seq<string>) {
    forall i, j | 0 <= i < j < |s| :: s[i] != s[j]
  }

  lemma {:induction false} DistinctRepeatsNone(seen: seq<string>, s: seq<string>)
    requires NoneRepeated(seen)
    ensures NoneRepeated(Distinct(seen, s))
    decreases |s|
  {
    if s != [] {
      var more := if s[0] in seen then seen else seen + [s[0]];
      assert NoneRepeated(more);
      DistinctRepeatsNone(more, s[1..]);
      assert Distinct(seen, s) == Distinct(more, s[1..]);
    }
  }

  // The key matches, and its category is not made of pairs.
  predicate IsOdd(project: nat, key: string) {
    var category := Search(Prefix(project), key, 0);
    category.Some? && |Split(category.value)| % 2 == 1
  }

  // Without a project nothing is built. Else building fails exactly when a key that matches does not split
  // into pairs; if it does not fail the keys returned are those that match, and there is a filter if there
  // are any.
  lemma BuildsIff(project: nat, keys: seq<string>, exclude: bool)
    ensures project == 0 ==> Expected(project, keys, exclude) == Built("", [])
    ensures Expected(project, keys, exclude).IndexError? <==> project != 0 && exists k :: k in keys && IsOdd(project, k)
    ensures var built := Expected(project, keys, exclude);
            built.Built? && project != 0 ==>
              && (forall k :: k in built.categoryKeys <==> k in keys && Search(Prefix(project), k, 0).Some?)
              && (built.filters == "" <==> built.categoryKeys == [])
  {
    if project != 0 && keys != [] {
      var named := Named(project, keys);
      var names := Distinct([], named);
      forall n ensures n in names <==> exists k :: k in keys && Search(Prefix(project), k, 0) == Some(n) {
        DistinctHasSame([], named, n);
        NamedHave(project, keys, n);
      }
      forall k ensures k in Matching(project, keys) <==> k in keys && Search(Prefix(project), k, 0).Some? {
        MatchingHave(project, keys, k);
      }
      AllPairsIff(names);
      NamesAreOdd(project, keys, names);
      NamesAreMatching(project, keys, names);
    }
  }

  lemma NamesAreOdd(project: nat, keys: seq<string>, names: seq<string>)
    requires forall n :: n in names <==> exists k :: k in keys && Search(Prefix(project), k, 0) == Some(n)
    ensures (exists n :: n in names && |Split(n)| % 2 == 1) <==> exists k :: k in keys && IsOdd(project, k)
  {
    if k :| k in keys && IsOdd(project, k) {
      assert Search(Prefix(project), k, 0).value in names;
    }
  }

  lemma NamesAreMatching(project: nat, keys: seq<string>, names: seq<string>)
    requires forall n :: n in names <==> exists k :: k in keys && Search(Prefix(project), k, 0) == Some(n)
    ensures names == [] <==> Matching(project, keys) == []
  {
    if names != [] {
      var k :| k in keys && Search(Prefix(project), k, 0) == Some(names[0]);
      MatchingHave(project, keys, k);
    }
    if Matching(project, keys) != [] {
      var k := Matching(project, keys)[0];
      MatchingHave(project, keys, k);
      assert Search(Prefix(project), k, 0).value in names;
    }
  }

  /** ---- From reservation keys to rows ---- */

  function Categories(reservations: seq<Reservation>): seq<string> {
    if reservations == [] then [] else [Category(reservations[0].pairs)] + Categories(reservations[1..])
  }

  ghost predicate AllReadable(reservations: seq<Reservation>) {
    forall r | r in reservations :: r.pairs != [] && Readable(Flatten(r.pairs))
  }

  lemma {:induction false} KeysAreMatched(project: nat, reservations: seq<Reservation>)
    requires AllReadable(reservations)
    ensures Named(project, Keys(project, reservations)) == Categories(reservations)
    ensures Matching(project, Keys(project, reservations)) == Keys(project, reservations)
  {
    if reservations != [] {
      var r := reservations[0];
      KeysAreMatched(project, reservations[1..]);
      ReadableReadsBack(project, r.pairs, r.user, r.task);
      var keys := Keys(project, reservations);
      assert keys[0] == Key(project, r.pairs, r.user, r.task) && keys[1..] == Keys(project, reservations[1..]);
    }
  }

  lemma {:induction false} DistinctHasSame(seen: seq<string>, s: seq<string>, x: string)
    ensures x in Distinct(seen, s) <==> x in seen || x in s
    decreases |s|
  {
    if s != [] {
      DistinctHasSame(if s[0] in seen then seen else seen + [s[0]], s[1..], x);
      assert s == [s[0]] + s[1..];
    }
  }

  lemma {:induction false} CategoriesHave(reservations: seq<Reservation>, c: string)
    ensures c in Categories(reservations) <==> exists r :: r in reservations && Category(r.pairs) == c
  {
    if reservations != [] {
      CategoriesHave(reservations[1..], c);
      assert reservations == [reservations[0]] + reservations[1..];
    }
  }

  lemma {:induction false} AllPairsHave(names: seq<string>)
    requires forall n | n in names :: Pairs(Split(n)).Some?
    ensures AllPairs(names).Some?
    ensures forall c :: c in AllPairs(names).value <==> exists n :: n in names && Pairs(Split(n)) == Some(c)
  {
    if names != [] {
      assert names == [names[0]] + names[1..];
      assert names[0] in names;
      AllPairsHave(names[1..]);
      var first, rest := Pairs(Split(names[0])).value, AllPairs(names[1..]).value;
      forall c
        ensures c in [first] + rest <==> exists n :: n in names && Pairs(Split(n)) == Some(c)
      {
        assert c in [first] + rest <==> c == first || c in rest;
        if n :| n in names && Pairs(Split(n)) == Some(c) {
          assert n == names[0] || n in names[1..];
        }
      }
    }
  }

  // The distinct categories of readable reservations are their pairs.
  lemma DistinctPairs(reservations: seq<Reservation>)
    requires AllReadable(reservations)
    ensures var all := AllPairs(Distinct([], Categories(reservations)));
      all.Some? && forall c :: c in all.value <==> exists r :: r in reservations && r.pairs == c
  {
    var names := Distinct([], Categories(reservations));
    forall n
      ensures n in names <==> exists r :: r in reservations && Category(r.pairs) == n
    {
      DistinctHasSame([], Categories(reservations), n);
      CategoriesHave(reservations, n);
    }
    forall r | r in reservations
      ensures Pairs(Split(Category(r.pairs))) == Some(r.pairs)
    {
      SplitJoin(Flatten(r.pairs));
      PairsFlatten(r.pairs);
    }
    AllPairsHave(names);
    var all := AllPairs(names).value;
    forall r | r in reservations
      ensures r.pairs in all
    {
      assert Category(r.pairs) in names;
    }
  }

  // From the keys of readable reservations the filter keeps a row exactly when the row agrees with
  // some reserved category on every field, or with none of them when excluding.
  lemma FilterMeansReserved(project: nat, reservations: seq<Reservation>, exclude: bool, info: map<string, string>)
    requires project != 0 && reservations != [] && AllReadable(reservations)
    requires forall r | r in reservations :: PlainFields(r.pairs)
    ensures var built := Expected(project, Keys(project, reservations), exclude);
      && built.Built? && built.categoryKeys == Keys(project, reservations)
      && ReadFilter(built.filters).Some?
      && (Keeps(info, ReadFilter(built.filters).value) <==>
          exclude != exists r :: r in reservations && Agrees(info, r.pairs))
  {
    KeysAreMatched(project, reservations);
    DistinctPairs(reservations);
    var all := AllPairs(Distinct([], Categories(reservations))).value;
    assert reservations[0] in reservations;
    assert reservations[0].pairs in all;
    FilterReadsBack(all, exclude);
    AnyOfIsTrueIff(info, all);
    if r :| r in reservations && Agrees(info, r.pairs) {
      assert r.pairs in all;
    }
  }
}
