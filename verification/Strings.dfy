/** Python's string operations on which the filters rely. */
module Strings {
  // Python's str.replace for a single character.
  function Replace(s: string, c: char, to: string): string {
    if s == "" then "" else (if s[0] == c then to else [s[0]]) + Replace(s[1..], c, to)
  }

  lemma {:induction false} ReplaceConcat(a: string, b: string, c: char, to: string)
    ensures Replace(a + b, c, to) == Replace(a, c, to) + Replace(b, c, to)
  {
    if a == "" {
      assert a + b == b;
    } else {
      ReplaceConcat(a[1..], b, c, to);
      assert (a + b)[0] == a[0] && (a + b)[1..] == a[1..] + b;
      var first, rest, last := if a[0] == c then to else [a[0]], Replace(a[1..], c, to), Replace(b, c, to);
      assert first + (rest + last) == first + rest + last;
    }
  }

  /** ---- Decimal numbers ---- */

  function Decimal(n: nat): string {
    (if n < 10 then "" else Decimal(n / 10)) + [('0' as int + n % 10) as char]
  }

  lemma DecimalIs()
    ensures Decimal(7) == "7" && Decimal(120) == "120"
  {
    assert Decimal(1) == "1";
    assert Decimal(12) == "12";
  }

  lemma {:induction false} DecimalIsInjective(a: nat, b: nat)
    requires Decimal(a) == Decimal(b)
    ensures a == b
  {
    var x, y := Decimal(a), Decimal(b);
    assert x[|x| - 1] == y[|y| - 1];
    assert a % 10 == b % 10;
    assert x[..|x| - 1] == y[..|y| - 1];
    assert x[..|x| - 1] == if a < 10 then "" else Decimal(a / 10);
    assert y[..|y| - 1] == if b < 10 then "" else Decimal(b / 10);
    if a >= 10 && b >= 10 { DecimalIsInjective(a / 10, b / 10); }
  }

  lemma {:induction false} DecimalIsDigits(n: nat)
    ensures Decimal(n) != "" && forall c | c in Decimal(n) :: '0' <= c <= '9'
  {
    if n >= 10 { DecimalIsDigits(n / 10); }
  }

  /** ---- Joining and splitting at colons ---- */

  predicate NoColon(s: string) {
    ':' !in s
  }

  ghost predicate NoColons(segments: seq<string>) {
    forall s | s in segments :: NoColon(s)
  }

  // ":".join(segments).
  function Join(segments: seq<string>): string {
    if segments == [] then ""
    else if |segments| == 1 then segments[0]
    else segments[0] + ":" + Join(segments[1..])
  }

  // s.split(":").
  function Split(s: string): (r: seq<string>)
    ensures r != []
  {
    if s == "" then [""]
    else
      var rest := Split(s[1..]);
      if s[0] == ':' then [""] + rest else [[s[0]] + rest[0]] + rest[1..]
  }

  lemma {:induction false} SplitOne(s: string)
    requires NoColon(s)
    ensures Split(s) == [s]
  {
    if s != "" {
      assert s[0] in s && s == [s[0]] + s[1..];
      SplitOne(s[1..]);
    }
  }

  lemma {:induction false} SplitConcat(a: string, b: string)
    ensures Split(a + ":" + b) == Split(a) + Split(b)
  {
    var t := a + ":" + b;
    if a == "" {
      assert t[1..] == b;
    } else {
      assert t[0] == a[0] && t[1..] == a[1..] + ":" + b;
      SplitConcat(a[1..], b);
      FirstOfMore(a[0], Split(a[1..]), Split(b));
    }
  }

  // One more character at the front changes the first part only.
  lemma FirstOfMore(c: char, first: seq<string>, second: seq<string>)
    requires first != []
    ensures [""] + (first + second) == ([""] + first) + second
    ensures [[c] + (first + second)[0]] + (first + second)[1..] == ([[c] + first[0]] + first[1..]) + second
  {
  }

  lemma {:induction false} SplitJoin(segments: seq<string>)
    requires segments != [] && NoColons(segments)
    ensures Split(Join(segments)) == segments
  {
    if |segments| == 1 {
      SplitOne(segments[0]);
    } else {
      SplitOne(segments[0]);
      SplitConcat(segments[0], Join(segments[1..]));
      SplitJoin(segments[1..]);
    }
  }

  lemma {:induction false} JoinConcat(a: seq<string>, b: seq<string>)
    requires a != [] && b != []
    ensures Join(a + b) == Join(a) + ":" + Join(b)
  {
    if |a| == 1 {
      assert (a + b)[1..] == b;
    } else {
      assert (a + b)[1..] == a[1..] + b;
      JoinConcat(a[1..], b);
    }
  }

  lemma {:induction false} SplitHasNoColons(s: string)
    ensures NoColons(Split(s))
  {
    if s != "" {
      var rest := Split(s[1..]);
      SplitHasNoColons(s[1..]);
      assert rest[0] in rest;
      assert NoColon([s[0]] + rest[0]) || s[0] == ':';
      assert forall x | x in rest[1..] :: x in rest;
    }
  }

  // Splitting loses nothing.
  lemma {:induction false} JoinSplit(s: string)
    ensures Join(Split(s)) == s
  {
    if s != "" {
      var rest := Split(s[1..]);
      JoinSplit(s[1..]);
      assert s == [s[0]] + s[1..];
      if s[0] == ':' {
        assert ([""] + rest)[1..] == rest;
      } else {
        var head := [s[0]] + rest[0];
        assert ([head] + rest[1..])[1..] == rest[1..];
        assert |rest| > 1 ==> head + ":" + Join(rest[1..]) == [s[0]] + (rest[0] + ":" + Join(rest[1..]));
      }
    }
  }

  // A colon in a joined string separates two segments.
  lemma Boundary(segments: seq<string>, a: string, b: string) returns (i: int)
    requires segments != [] && NoColons(segments) && Join(segments) == a + ":" + b
    ensures 1 <= i < |segments| && a == Join(segments[..i]) && b == Join(segments[i..])
  {
    SplitJoin(segments);
    SplitConcat(a, b);
    JoinSplit(a);
    JoinSplit(b);
    i := |Split(a)|;
    assert segments[..i] == Split(a) && segments[i..] == Split(b);
  }

  // A text up to a colon that starts a joined string is its first segment.
  lemma IsFirst(segments: seq<string>, x: string, rest: string)
    requires segments != [] && NoColons(segments) && NoColon(x) && Join(segments) == x + ":" + rest
    ensures |segments| > 1 && segments[0] == x && Join(segments[1..]) == rest
  {
    var i := Boundary(segments, x, rest);
    SplitOne(x);
    assert i > 0 ==> Split(Join(segments[..i])) == segments[..i] by { SplitJoin(segments[..i]); }
    assert segments[..i] == [x];
  }

  // A text without colons that starts a joined string starts its first segment.
  lemma StartsFirst(segments: seq<string>, x: string)
    requires segments != [] && NoColon(x) && x <= Join(segments)
    ensures x <= segments[0]
  {
    assert |segments| > 1 ==> Join(segments)[|segments[0]|] == ':';
    assert forall k | 0 <= k < |x| :: x[k] == Join(segments)[k] && x[k] != ':';
  }

  lemma JoinThree(a: string, b: string, c: string)
    ensures Join([a, b, c]) == a + ":" + b + ":" + c
  {
    assert [a, b, c][1..] == [b, c] && [b, c][1..] == [c];
    assert Join([b, c]) == b + ":" + c;
    assert a + ":" + (b + ":" + c) == a + ":" + b + ":" + c;
  }

  lemma JoinFour(a: string, b: string, c: string, d: string)
    ensures Join([a, b, c, d]) == a + ":" + b + ":" + c + ":" + d
  {
    assert [a, b, c, d][1..] == [b, c, d];
    JoinThree(b, c, d);
    assert a + ":" + (b + ":" + c + ":" + d) == a + ":" + b + ":" + c + ":" + d;
  }

  /** ---- Containment ---- */

  // Python's x in s.
  predicate Contains(s: string, x: string) {
    exists j :: 0 <= j <= |s| && x <= s[j..]
  }

  lemma ContainsMiddle(s: string, a: string, x: string, b: string)
    requires s == a + x + b
    ensures Contains(s, x)
  {
    assert s[|a|..] == x + b;
  }

  lemma CutTwice<T>(s: seq<T>, i: nat, j: nat)
    requires i <= j <= |s|
    ensures s == s[..i] + (s[i..j] + s[j..])
  {
  }

  lemma Around(s: string, x: string) returns (a: string, b: string)
    requires Contains(s, x)
    ensures s == a + x + b
  {
    var j :| 0 <= j <= |s| && x <= s[j..];
    var end := j + |x|;
    a, b := s[..j], s[end..];
    assert s[j..end] == x;
    CutTwice(s, j, end);
  }

  /** ---- Three segments in a row ---- */

  ghost predicate WindowAt(segments: seq<string>, i: int, x: string, y: string, z: string) {
    0 <= i < |segments| - 2 && segments[i] == x && segments[i + 1] == y && segments[i + 2] == z
  }

  function Mark(x: string, y: string, z: string): string {
    ":" + Join([x, y, z]) + ":"
  }

  lemma WindowFromMark(segments: seq<string>, x: string, y: string, z: string, a: string, rest: string)
    returns (i: int)
    requires segments != [] && NoColons(segments) && NoColon(x) && NoColon(y) && NoColon(z)
    requires Join(segments) == a + Mark(x, y, z) + rest
    ensures WindowAt(segments, i, x, y, z)
  {
    var b := x + ":" + (y + ":" + (z + ":" + rest));
    JoinThree(x, y, z);
    assert Join([x, y, z]) + ":" + rest == b;
    MarkInMiddle(a, Join([x, y, z]), rest);
    i := Boundary(segments, a, b);
    IsFirst(segments[i..], x, y + ":" + (z + ":" + rest));
    assert segments[i..][1..] == segments[i + 1..];
    IsFirst(segments[i + 1..], y, z + ":" + rest);
    assert segments[i + 1..][1..] == segments[i + 2..];
    IsFirst(segments[i + 2..], z, rest);
  }

  lemma MarkFromWindow(segments: seq<string>, x: string, y: string, z: string, i: int)
    requires WindowAt(segments, i, x, y, z) && 0 < i && i + 3 < |segments|
    ensures Contains(Join(segments), Mark(x, y, z))
  {
    CutTwice(segments, i, i + 3);
    assert segments[i..i + 3] == [x, y, z];
    MarkBetween(segments[..i], x, y, z, segments[i + 3..]);
  }

  lemma MarkBetween(a: seq<string>, x: string, y: string, z: string, c: seq<string>)
    requires a != [] && c != []
    ensures Contains(Join(a + ([x, y, z] + c)), Mark(x, y, z))
  {
    JoinParts(a, [x, y, z], c);
    MarkInMiddle(Join(a), Join([x, y, z]), Join(c));
    ContainsMiddle(Join(a + ([x, y, z] + c)), Join(a), Mark(x, y, z), Join(c));
  }

  lemma JoinParts(a: seq<string>, b: seq<string>, c: seq<string>)
    requires a != [] && b != [] && c != []
    ensures Join(a + (b + c)) == Join(a) + ":" + (Join(b) + ":" + Join(c))
  {
    JoinConcat(a, b + c);
    JoinConcat(b, c);
  }

  lemma MarkInMiddle(a: string, m: string, c: string)
    ensures a + (":" + m + ":") + c == a + ":" + (m + ":" + c)
  {
  }

  lemma MarkGivesWindow(segments: seq<string>, x: string, y: string, z: string) returns (i: int)
    requires segments != [] && NoColons(segments) && NoColon(x) && NoColon(y) && NoColon(z)
    requires Contains(Join(segments), Mark(x, y, z))
    ensures WindowAt(segments, i, x, y, z)
  {
    var a, b := Around(Join(segments), Mark(x, y, z));
    i := WindowFromMark(segments, x, y, z, a, b);
  }

  // The mark occurs in joined segments exactly where its three segments follow each other inside.
  lemma MarkIsWindow(segments: seq<string>, x: string, y: string, z: string)
    requires segments != [] && segments[0] != x && segments[|segments| - 1] != z
    requires NoColons(segments) && NoColon(x) && NoColon(y) && NoColon(z)
    ensures Contains(Join(segments), Mark(x, y, z)) <==> exists i :: WindowAt(segments, i, x, y, z)
  {
    if i :| WindowAt(segments, i, x, y, z) {
      MarkFromWindow(segments, x, y, z, i);
    } else if Contains(Join(segments), Mark(x, y, z)) {
      var i := MarkGivesWindow(segments, x, y, z);
      assert false;
    }
  }
}
