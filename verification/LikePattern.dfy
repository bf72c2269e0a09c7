/**
 The like predicate of section 8.5 of ISO/IEC 9075-2 with escape character backslash, and
 the escaping that turns a search value into a pattern for itself.
 */
module LikePattern {
  import opened Strings

  const ESCAPE: char := '\\'

  predicate IsMeta(c: char) {
    c == '\\' || c == '%' || c == '_'
  }

  // Whether s matches the pattern p. An escape that does not precede a special character
  // is an error in SQL; see WellFormed.
  predicate Like(s: string, p: string)
    decreases |s| + |p|
  {
    if p == "" then s == ""
    else if p[0] == '%' then Like(s, p[1..]) || (s != "" && Like(s[1..], p))
    else if p[0] == '_' then s != "" && Like(s[1..], p[1..])
    else if p[0] == ESCAPE then |p| >= 2 && s != "" && s[0] == p[1] && Like(s[1..], p[2..])
    else s != "" && s[0] == p[0] && Like(s[1..], p[1..])
  }

  // What each part of a pattern matches: a percent sign any text, an underscore one character, an escaped
  // character and any other one itself.
  lemma PatternMeans(s: string, c: char, p: string)
    ensures Like(s, "") <==> s == ""
    ensures Like(s, "%" + p) <==> exists i :: 0 <= i <= |s| && Like(s[i..], p)
    ensures Like(s, "_" + p) <==> s != "" && Like(s[1..], p)
    ensures Like(s, ['\\', c] + p) <==> s != "" && s[0] == c && Like(s[1..], p)
    ensures c != '%' && c != '_' && c != '\\' ==> (Like(s, [c] + p) <==> s != "" && s[0] == c && Like(s[1..], p))
  {
    PercentSkips(s, p);
    assert ("_" + p)[1..] == p && ([c] + p)[1..] == p && (['\\', c] + p)[2..] == p;
  }

  predicate WellFormed(p: string) {
    if p == "" then true
    else if p[0] == ESCAPE then |p| >= 2 && IsMeta(p[1]) && WellFormed(p[2..])
    else WellFormed(p[1..])
  }

  function EscapeLikeParam(s: string): string {
    Replace(Replace(Replace(s, '\\', "\\\\"), '%', "\\%"), '_', "\\_")
  }

  // The same as one pass over the characters.
  function EscapeEach(s: string): string {
    if s == "" then "" else (if IsMeta(s[0]) then [ESCAPE, s[0]] else [s[0]]) + EscapeEach(s[1..])
  }

  lemma EscapeOne(c: char)
    ensures EscapeLikeParam([c]) == if IsMeta(c) then [ESCAPE, c] else [c]
  {
    var s1 := Replace([c], '\\', "\\\\");
    assert s1 == if c == '\\' then "\\\\" else [c] by { ReplaceTwo([c], '\\', "\\\\"); }
    var s2 := Replace(s1, '%', "\\%");
    assert s2 == if c == '\\' then "\\\\" else if c == '%' then "\\%" else [c] by { ReplaceTwo(s1, '%', "\\%"); }
    assert Replace(s2, '_', "\\_") == if IsMeta(c) then [ESCAPE, c] else [c] by { ReplaceTwo(s2, '_', "\\_"); }
  }

  lemma ReplaceTwo(s: string, c: char, to: string)
    requires 1 <= |s| <= 2
    ensures Replace(s, c, to)
         == (if s[0] == c then to else [s[0]]) + (if |s| == 1 then "" else if s[1] == c then to else [s[1]])
  {
    assert s[1..] == if |s| == 1 then "" else [s[1]];
    if |s| == 2 { assert s[1..][1..] == ""; }
  }

  // The three replacements, in their order, escape every character once.
  lemma {:induction false} EscapeIsCharacterwise(s: string)
    ensures EscapeLikeParam(s) == EscapeEach(s)
  {
    if s != "" {
      var c, rest := [s[0]], s[1..];
      assert s == c + rest;
      ReplaceConcat(c, rest, '\\', "\\\\");
      ReplaceConcat(Replace(c, '\\', "\\\\"), Replace(rest, '\\', "\\\\"), '%', "\\%");
      ReplaceConcat(Replace(Replace(c, '\\', "\\\\"), '%', "\\%"),
                    Replace(Replace(rest, '\\', "\\\\"), '%', "\\%"), '_', "\\_");
      EscapeOne(s[0]);
      EscapeIsCharacterwise(rest);
    }
  }

  lemma {:induction false} EscapedIsWellFormed(v: string, tail: string)
    requires WellFormed(tail)
    ensures WellFormed(EscapeEach(v) + tail)
  {
    if v == "" {
      assert EscapeEach(v) + tail == tail;
    } else {
      EscapedIsWellFormed(v[1..], tail);
      EscapeStep(v, tail);
    }
  }

  // The pattern of a value starts with that of its first character.
  lemma EscapeStep(v: string, tail: string)
    requires v != ""
    ensures var p := EscapeEach(v) + tail;
            if IsMeta(v[0]) then |p| >= 2 && p[0] == ESCAPE && p[1] == v[0] && p[2..] == EscapeEach(v[1..]) + tail
            else p != "" && p[0] == v[0] && p[1..] == EscapeEach(v[1..]) + tail
  {
    var head, rest := if IsMeta(v[0]) then [ESCAPE, v[0]] else [v[0]], EscapeEach(v[1..]);
    HeadOff(head, rest, tail);
    assert EscapeEach(v) + tail == head + rest + tail;
  }

  lemma HeadOff(head: string, rest: string, tail: string)
    ensures var p := head + rest + tail;
            p[|head|..] == rest + tail && forall i | 0 <= i < |head| :: p[i] == head[i]
  {
  }

  // An escaped value matches itself and nothing else, before whatever follows.
  lemma {:induction false} EscapedMatchesItself(s: string, v: string, tail: string)
    ensures Like(s, EscapeEach(v) + tail) <==> v <= s && Like(s[|v|..], tail)
  {
    if v == "" {
      assert EscapeEach(v) + tail == tail && s[0..] == s;
    } else {
      EscapeStep(v, tail);
      if s == "" {
        assert !(v <= s);
      } else {
        EscapedMatchesItself(s[1..], v[1..], tail);
        FirstMatches(s, v, tail);
        PrefixStep(v, s);
      }
    }
  }

  lemma FirstMatches(s: string, v: string, tail: string)
    requires v != "" && s != ""
    ensures Like(s, EscapeEach(v) + tail) <==> s[0] == v[0] && Like(s[1..], EscapeEach(v[1..]) + tail)
  {
    EscapeStep(v, tail);
  }

  lemma PrefixStep(v: string, s: string)
    requires v != "" && s != ""
    ensures v <= s <==> s[0] == v[0] && v[1..] <= s[1..]
    ensures v <= s ==> s[1..][|v[1..]|..] == s[|v|..]
  {
    if s[0] == v[0] && v[1..] <= s[1..] {
      assert v == [v[0]] + v[1..] && s == [s[0]] + s[1..];
    }
  }

  lemma {:induction false} PercentMatchesAll(s: string)
    ensures Like(s, "%")
  {
    if s != "" { PercentMatchesAll(s[1..]); }
  }

  ghost predicate Occurs(v: string, s: string) {
    exists i :: 0 <= i <= |s| && v <= s[i..]
  }

  // A leading percent sign matches any beginning.
  lemma {:induction false} PercentSkips(s: string, p: string)
    ensures Like(s, "%" + p) <==> exists i :: 0 <= i <= |s| && Like(s[i..], p)
  {
    var q := "%" + p;
    assert q[0] == '%' && q[1..] == p;
    assert s[0..] == s;
    if s != "" {
      PercentSkips(s[1..], p);
      if Like(s[1..], q) {
        var i :| 0 <= i <= |s[1..]| && Like(s[1..][i..], p);
        assert s[1..][i..] == s[i + 1..];
      }
      if i :| 1 <= i <= |s| && Like(s[i..], p) {
        assert s[1..][i - 1..] == s[i..];
      }
    }
  }

  /** ---- The patterns of the task filters ---- */

  lemma StartsWithPattern(s: string, v: string)
    ensures WellFormed(EscapeLikeParam(v) + "%")
    ensures Like(s, EscapeLikeParam(v) + "%") <==> v <= s
  {
    EscapeIsCharacterwise(v);
    EscapedIsWellFormed(v, "%");
    EscapedMatchesItself(s, v, "%");
    if v <= s { PercentMatchesAll(s[|v|..]); }
  }

  lemma ContainsPattern(s: string, v: string)
    ensures WellFormed("%" + EscapeLikeParam(v) + "%")
    ensures Like(s, "%" + EscapeLikeParam(v) + "%") <==> Occurs(v, s)
  {
    var p := EscapeLikeParam(v) + "%";
    assert "%" + EscapeLikeParam(v) + "%" == "%" + p;
    assert ("%" + p)[1..] == p;
    StartsWithPattern(s, v);
    PercentSkips(s, p);
    forall i | 0 <= i <= |s| ensures Like(s[i..], p) <==> v <= s[i..] {
      StartsWithPattern(s[i..], v);
    }
  }

  /** ---- Matching without regard to case ---- */

  // Folding a character to lower case leaves the special characters to themselves.
  ghost predicate FoldsCase(fold: char -> char) {
    forall c :: if IsMeta(c) then fold(c) == c else !IsMeta(fold(c))
  }

  function Fold(fold: char -> char, s: string): (r: string)
    ensures |r| == |s| && forall i | 0 <= i < |s| :: r[i] == fold(s[i])
  {
    seq(|s|, i requires 0 <= i < |s| => fold(s[i]))
  }

  predicate ILike(fold: char -> char, s: string, p: string) {
    Like(Fold(fold, s), Fold(fold, p))
  }

  lemma FoldConcat(fold: char -> char, a: string, b: string)
    ensures Fold(fold, a + b) == Fold(fold, a) + Fold(fold, b)
  {
  }

  lemma FoldHead(fold: char -> char, c: char)
    requires FoldsCase(fold)
    ensures Fold(fold, if IsMeta(c) then [ESCAPE, c] else [c]) == if IsMeta(fold(c)) then [ESCAPE, fold(c)] else [fold(c)]
  {
  }

  lemma {:induction false} FoldEscaped(fold: char -> char, v: string)
    requires FoldsCase(fold)
    ensures Fold(fold, EscapeEach(v)) == EscapeEach(Fold(fold, v))
  {
    if v != "" {
      var head, rest := if IsMeta(v[0]) then [ESCAPE, v[0]] else [v[0]], v[1..];
      FoldEscaped(fold, rest);
      FoldHead(fold, v[0]);
      FoldConcat(fold, head, EscapeEach(rest));
      assert Fold(fold, v)[0] == fold(v[0]) && Fold(fold, v)[1..] == Fold(fold, rest);
    }
  }

  // ILIKE with the escaped value and a percent sign is a case-insensitive prefix test.
  lemma IStartsWith(fold: char -> char, s: string, v: string)
    requires FoldsCase(fold)
    ensures ILike(fold, s, EscapeLikeParam(v) + "%") <==> Fold(fold, v) <= Fold(fold, s)
  {
    EscapeIsCharacterwise(v);
    EscapeIsCharacterwise(Fold(fold, v));
    FoldEscaped(fold, v);
    assert Fold(fold, EscapeLikeParam(v) + "%") == EscapeLikeParam(Fold(fold, v)) + "%";
    StartsWithPattern(Fold(fold, s), Fold(fold, v));
  }

  lemma IContains(fold: char -> char, s: string, v: string)
    requires FoldsCase(fold)
    ensures ILike(fold, s, "%" + EscapeLikeParam(v) + "%") <==> Occurs(Fold(fold, v), Fold(fold, s))
  {
    EscapeIsCharacterwise(v);
    EscapeIsCharacterwise(Fold(fold, v));
    FoldEscaped(fold, v);
    assert Fold(fold, "%" + EscapeLikeParam(v) + "%") == "%" + EscapeLikeParam(Fold(fold, v)) + "%";
    ContainsPattern(Fold(fold, s), Fold(fold, v));
  }
}
