/** Anope::Distance of src/misc.cpp: the one-row Levenshtein computation, proved against edit scripts. */
module Distance {

  // ---------- edit scripts: the independent definition ----------

  datatype Edit = Insert(at: nat, c: char) | Delete(at: nat) | Substitute(at: nat, c: char)

  predicate Applicable(s: string, e: Edit) {
    if e.Insert? then e.at <= |s| else e.at < |s|
  }

  function Apply(s: string, e: Edit): string
    requires Applicable(s, e)
  {
    match e
    case Insert(at, c) => s[..at] + [c] + s[at..]
    case Delete(at) => s[..at] + s[at + 1..]
    case Substitute(at, c) => s[..at] + [c] + s[at + 1..]
  }

  /** The script turns the string a into the string b, one edit after the other. */
  ghost predicate Rewrites(a: string, script: seq<Edit>, b: string)
    decreases |script|
  {
    if script == [] then a == b
    else Applicable(a, script[0]) && Rewrites(Apply(a, script[0]), script[1..], b)
  }

  /** n is the length of a shortest script from a to b. */
  ghost predicate IsEditDistance(n: nat, a: string, b: string) {
    && (exists script :: |script| == n && Rewrites(a, script, b))
    && (forall script :: Rewrites(a, script, b) ==> n <= |script|)
  }

  // ---------- the recurrence, on last characters ----------

  function Min3(x: nat, y: nat, z: nat): nat {
    if x <= y && x <= z then x else if y <= z then y else z
  }

  function Init(s: string): string
    requires s != []
  {
    s[..|s| - 1]
  }

  function Last(s: string): char
    requires s != []
  {
    s[|s| - 1]
  }

  ghost function Lev(a: string, b: string): nat
    decreases |a| + |b|
  {
    if a == [] then |b|
    else if b == [] then |a|
    else Min3(Lev(Init(a), b) + 1, Lev(a, Init(b)) + 1, Diagonal(a, b))
  }

  ghost function Diagonal(a: string, b: string): nat
    requires a != [] && b != []
    decreases |a| + |b|, 0
  {
    Lev(Init(a), Init(b)) + if Last(a) == Last(b) then 0 else 1
  }

  lemma {:induction false} LevSelf(a: string)
    ensures Lev(a, a) == 0
    decreases |a|
  {
    if a != [] {
      LevSelf(Init(a));
    }
  }

  lemma {:induction false} LevSymmetric(a: string, b: string)
    ensures Lev(a, b) == Lev(b, a)
    decreases |a| + |b|
  {
    if a != [] && b != [] {
      LevSymmetric(Init(a), b);
      LevSymmetric(a, Init(b));
      LevSymmetric(Init(a), Init(b));
    }
  }

  lemma {:induction false} LevBounds(a: string, b: string)
    ensures |b| <= |a| + Lev(a, b) && |a| <= |b| + Lev(a, b)
    decreases |a| + |b|
  {
    if a != [] && b != [] {
      LevBounds(Init(a), b);
      LevBounds(a, Init(b));
      LevBounds(Init(a), Init(b));
    }
  }

  /** One step of the recurrence costs at most one, or is free on the diagonal of equal characters. */
  lemma LevUpper(a: string, c: string)
    ensures a != [] ==> Lev(a, c) <= Lev(Init(a), c) + 1
    ensures c != [] ==> Lev(a, c) <= Lev(a, Init(c)) + 1
    ensures a != [] && c != [] ==> Lev(a, c) <= Diagonal(a, c)
  {
  }

  lemma {:induction false} LevTriangle(a: string, b: string, c: string)
    ensures Lev(a, c) <= Lev(a, b) + Lev(b, c)
    decreases |a| + |b| + |c|
  {
    LevUpper(a, c);
    if a == [] || b == [] || c == [] {
      LevBounds(a, b);
      LevBounds(b, c);
      if b == [] {
        LevAtMostSum(a, c);
      }
    } else if Lev(a, b) == Lev(Init(a), b) + 1 {
      LevTriangle(Init(a), b, c);
    } else if Lev(b, c) == Lev(b, Init(c)) + 1 {
      LevTriangle(a, b, Init(c));
    } else if Lev(a, b) == Lev(a, Init(b)) + 1 {
      if Lev(b, c) == Lev(Init(b), c) + 1 {
        LevTriangle(a, Init(b), c);
      } else {
        LevTriangle(a, Init(b), Init(c));
      }
    } else if Lev(b, c) == Lev(Init(b), c) + 1 {
      LevTriangle(Init(a), Init(b), c);
    } else {
      LevTriangle(Init(a), Init(b), Init(c));
    }
  }

  lemma {:induction false} LevAtMostSum(a: string, c: string)
    ensures Lev(a, c) <= |a| + |c|
    decreases |a| + |c|
  {
    if a != [] && c != [] {
      LevAtMostSum(Init(a), c);
    }
  }

  // ---------- the recurrence is the shortest script ----------

  /** A common tail never makes strings further apart. */
  lemma {:induction false} LevCommonTail(x: string, y: string, tail: string)
    ensures Lev(x + tail, y + tail) <= Lev(x, y)
    decreases |tail|
  {
    if tail == [] {
      assert x + tail == x && y + tail == y;
    } else {
      assert Init(x + tail) == x + Init(tail) && Init(y + tail) == y + Init(tail);
      LevCommonTail(x, y, Init(tail));
    }
  }

  lemma OneInsert(x: string, y: string, c: char)
    ensures Lev(x + y, x + [c] + y) <= 1
  {
    LevSelf(x);
    LevUpper(x, x + [c]);
    assert Init(x + [c]) == x;
    LevCommonTail(x, x + [c], y);
  }

  lemma OneSubstitute(x: string, y: string, c: char, d: char)
    ensures Lev(x + [d] + y, x + [c] + y) <= 1
  {
    LevSelf(x);
    LevUpper(x + [d], x + [c]);
    assert Init(x + [c]) == x && Init(x + [d]) == x;
    LevCommonTail(x + [d], x + [c], y);
  }

  lemma OneEdit(a: string, e: Edit)
    requires Applicable(a, e)
    ensures Lev(a, Apply(a, e)) <= 1
  {
    if e.Insert? {
      assert a == a[..e.at] + a[e.at..];
      OneInsert(a[..e.at], a[e.at..], e.c);
    } else {
      var x, d, y := a[..e.at], a[e.at], a[e.at + 1..];
      assert a == x + [d] + y;
      if e.Delete? {
        OneInsert(x, y, d);
        LevSymmetric(x + y, a);
      } else {
        OneSubstitute(x, y, e.c, d);
      }
    }
  }

  lemma {:induction false} NoShorterScript(a: string, script: seq<Edit>, b: string)
    requires Rewrites(a, script, b)
    ensures Lev(a, b) <= |script|
    decreases |script|
  {
    if script == [] {
      LevSelf(a);
    } else {
      var mid := Apply(a, script[0]);
      OneEdit(a, script[0]);
      NoShorterScript(mid, script[1..], b);
      LevTriangle(a, mid, b);
    }
  }

  lemma ApplyInFront(a: string, e: Edit, tail: string)
    requires Applicable(a, e)
    ensures Applicable(a + tail, e) && Apply(a + tail, e) == Apply(a, e) + tail
  {
    assert (a + tail)[..e.at] == a[..e.at];
    if e.Insert? {
      assert (a + tail)[e.at..] == a[e.at..] + tail;
    } else {
      assert (a + tail)[e.at + 1..] == a[e.at + 1..] + tail;
    }
  }

  /** A script keeps working in front of a tail, and one more edit can follow it. */
  lemma {:induction false} ExtendScript(a: string, script: seq<Edit>, b: string, tail: string, e: Edit)
    requires Rewrites(a, script, b)
    requires Applicable(b + tail, e)
    ensures Rewrites(a + tail, script, b + tail)
    ensures Rewrites(a + tail, script + [e], Apply(b + tail, e))
    decreases |script|
  {
    if script == [] {
      assert (script + [e])[1..] == [];
    } else {
      var first := script[0];
      var mid := Apply(a, first);
      ApplyInFront(a, first, tail);
      ExtendScript(mid, script[1..], b, tail, e);
      assert (script + [e])[1..] == script[1..] + [e];
    }
  }

  /** One edit in front, at the end, or on the last characters extends a shortest script. */
  lemma DeleteLastFirst(a: string, b: string, rest: seq<Edit>)
    requires a != [] && Rewrites(Init(a), rest, b)
    ensures Rewrites(a, [Delete(|a| - 1)] + rest, b)
  {
    var script := [Delete(|a| - 1)] + rest;
    assert Apply(a, script[0]) == Init(a) && script[1..] == rest;
  }

  lemma InsertLast(a: string, b: string, rest: seq<Edit>)
    requires b != [] && Rewrites(a, rest, Init(b))
    ensures Rewrites(a, rest + [Insert(|b| - 1, Last(b))], b)
  {
    assert a + "" == a && Init(b) + "" == Init(b) && Apply(Init(b), Insert(|b| - 1, Last(b))) == b;
    ExtendScript(a, rest, Init(b), "", Insert(|b| - 1, Last(b)));
  }

  lemma KeepOrSubstituteLast(a: string, b: string, rest: seq<Edit>)
    requires a != [] && b != [] && Rewrites(Init(a), rest, Init(b))
    ensures Last(a) == Last(b) ==> Rewrites(a, rest, b)
    ensures Rewrites(a, rest + [Substitute(|b| - 1, Last(b))], b)
  {
    assert Init(a) + [Last(a)] == a && Init(b) + [Last(b)] == b;
    assert Apply(Init(b) + [Last(a)], Substitute(|b| - 1, Last(b))) == b;
    ExtendScript(Init(a), rest, Init(b), [Last(a)], Substitute(|b| - 1, Last(b)));
  }

  lemma {:induction false} ShortestScript(a: string, b: string) returns (script: seq<Edit>)
    ensures Rewrites(a, script, b) && |script| == Lev(a, b)
    decreases |a| + |b|
  {
    if a == [] && b == [] {
      script := [];
    } else if b == [] || (a != [] && Lev(a, b) == Lev(Init(a), b) + 1) {
      var rest := ShortestScript(Init(a), b);
      DeleteLastFirst(a, b, rest);
      script := [Delete(|a| - 1)] + rest;
    } else if a == [] || Lev(a, b) == Lev(a, Init(b)) + 1 {
      var rest := ShortestScript(a, Init(b));
      InsertLast(a, b, rest);
      script := rest + [Insert(|b| - 1, Last(b))];
    } else {
      var rest := ShortestScript(Init(a), Init(b));
      KeepOrSubstituteLast(a, b, rest);
      script := if Last(a) == Last(b) then rest else rest + [Substitute(|b| - 1, Last(b))];
    }
  }

  lemma LevIsEditDistance(a: string, b: string)
    ensures IsEditDistance(Lev(a, b), a, b)
    ensures forall n :: IsEditDistance(n, a, b) ==> n == Lev(a, b)
  {
    var script := ShortestScript(a, b);
    forall script | Rewrites(a, script, b)
      ensures Lev(a, b) <= |script|
    {
      NoShorterScript(a, script, b);
    }
  }

  /** Shortest script lengths form a metric on strings. */
  lemma EditDistanceIsMetric(a: string, b: string, c: string)
    ensures Lev(a, b) == 0 <==> a == b
    ensures Lev(a, b) == Lev(b, a)
    ensures Lev(a, c) <= Lev(a, b) + Lev(b, c)
  {
    LevTriangle(a, b, c);
    LevSymmetric(a, b);
    LevSelf(a);
    var script := ShortestScript(a, b);
  }

  // ---------- the loops ----------

  /** The recurrence in the form the loop uses: equal last characters always take the corner. */
  lemma CornerRule(a: string, b: string)
    requires a != [] && b != []
    ensures Lev(a, b) == if Last(a) == Last(b) then Lev(Init(a), Init(b))
                         else Min3(Lev(Init(a), b), Lev(Init(a), Init(b)), Lev(a, Init(b))) + 1
  {
    LevSelf(Init(a));
    LevSelf(Init(b));
    assert Lev(b, Init(b)) <= 1 && Lev(Init(a), a) <= 1;
    LevTriangle(Init(a), b, Init(b));
    LevTriangle(Init(a), a, Init(b));
  }

  /** One line of the table follows from the line above it, for the character c of the first string. */
  ghost predicate RowFollows(above: seq<nat>, row: seq<nat>, c: char, s2: string) {
    && |above| == |s2| + 1 && |row| == |s2| + 1 && row[0] == above[0] + 1
    && forall j :: 0 <= j < |s2| ==>
         row[j + 1] == if c == s2[j] then above[j] else Min3(above[j + 1], above[j], row[j]) + 1
  }

  ghost function Row(a: string, b: string): (row: seq<nat>)
    ensures |row| == |b| + 1 && row[|b|] == Lev(a, b)
    ensures a == [] ==> forall k :: 0 <= k <= |b| ==> row[k] == k
  {
    assert b[..|b|] == b;
    seq(|b| + 1, k requires 0 <= k <= |b| => Lev(a, b[..k]))
  }

  lemma RowOfPrefix(s1: string, i: nat, s2: string)
    requires i < |s1|
    ensures RowFollows(Row(s1[..i], s2), Row(s1[..i + 1], s2), s1[i], s2)
    ensures Row(s1[..i], s2)[0] == i
  {
    assert s2[..0] == [];
    var a := s1[..i + 1];
    assert Init(a) == s1[..i];
    forall j | 0 <= j < |s2|
      ensures Row(a, s2)[j + 1] == if s1[i] == s2[j] then Row(Init(a), s2)[j]
                                   else Min3(Row(Init(a), s2)[j + 1], Row(Init(a), s2)[j], Row(a, s2)[j]) + 1
    {
      assert Init(s2[..j + 1]) == s2[..j];
      CornerRule(a, s2[..j + 1]);
    }
  }

  /** The inner loop: one more character of the first string overwrites the row in place. */
  method NextRow(costs: array<nat>, c1: char, i: nat, s2: string, ghost above: seq<nat>, ghost row: seq<nat>)
    requires costs.Length == |s2| + 1 && costs[..] == above && above[0] == i && RowFollows(above, row, c1, s2)
    modifies costs
    ensures costs[..] == row
  {
    costs[0] := i + 1;
    var corner: nat := i;
    for j := 0 to |s2|
      invariant corner == above[j]
      invariant forall k :: 0 <= k <= j ==> costs[k] == row[k]
      invariant forall k :: j < k <= |s2| ==> costs[k] == above[k]
    {
      var upper := costs[j + 1];
      if c1 == s2[j] {
        costs[j + 1] := corner;
      } else {
        var t := if upper < corner then upper else corner;
        costs[j + 1] := (if costs[j] < t then costs[j] else t) + 1;
      }
      corner := upper;
    }
  }

  method Distance(s1: string, s2: string) returns (r: nat)
    ensures IsEditDistance(r, s1, s2)
  {
    LevIsEditDistance(s1, s2);
    if s1 == [] {
      return |s2|;
    }
    if s2 == [] {
      return |s1|;
    }
    var costs := new nat[|s2| + 1](k => k);
    assert costs[..] == Row(s1[..0], s2);
    for i := 0 to |s1|
      invariant costs[..] == Row(s1[..i], s2)
    {
      RowOfPrefix(s1, i, s2);
      NextRow(costs, s1[i], i, s2, Row(s1[..i], s2), Row(s1[..i + 1], s2));
    }
    assert s1[..|s1|] == s1;
    r := costs[|s2|];
  }
}
