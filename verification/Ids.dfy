/** The identifier odometer of src/protocol.cpp: nextID, UID_Retrieve and SID_Retrieve. */
module Ids {

  predicate IsIdChar(c: char) {
    'A' <= c <= 'Z' || '0' <= c <= '9'
  }

  predicate IsId(s: string) {
    s != [] && forall i :: 0 <= i < |s| ==> IsIdChar(s[i])
  }

  predicate DigitFirst(s: string) {
    IsId(s) && '0' <= s[0] <= '9'
  }

  /** A..Z count 0 to 25 and 0..9 count 26 to 35. */
  function Digit(c: char): (d: nat)
    requires IsIdChar(c)
    ensures d < 36 && (d >= 26 <==> '0' <= c <= '9')
  {
    if 'A' <= c <= 'Z' then (c - 'A') as int else (c - '0') as int + 26
  }

  ghost function Pow36(n: nat): (p: nat)
    ensures p >= 1
  {
    if n == 0 then 1 else 36 * Pow36(n - 1)
  }

  ghost function Value(s: string): nat
    requires forall i :: 0 <= i < |s| ==> IsIdChar(s[i])
  {
    if s == [] then 0 else 36 * Value(s[..|s| - 1]) + Digit(s[|s| - 1])
  }

  /** nextID on one character. */
  function NextChar(c: char, atFront: bool): (n: char)
    requires IsIdChar(c)
    ensures IsIdChar(n)
    ensures c != '9' ==> Digit(n) == Digit(c) + 1 && n != 'A'
    ensures c == '9' ==> n == if atFront then '0' else 'A'
  {
    if c == 'Z' then '0'
    else if c != '9' then (c as int + 1) as char
    else if atFront then '0' else 'A'
  }

  /** One turn of the whole odometer. */
  function Succ(s: string): (t: string)
    requires IsId(s)
    ensures IsId(t) && |t| == |s|
  {
    var last := |s| - 1;
    if last > 0 && s[last] == '9' then Succ(s[..last]) + "A"
    else s[..last] + [NextChar(s[last], last == 0)]
  }

  ghost function Nth(s: string, k: nat): (t: string)
    requires IsId(s)
    ensures IsId(t) && |t| == |s|
  {
    if k == 0 then s else Succ(Nth(s, k - 1))
  }

  // ---------- what a turn does to the value ----------

  lemma {:induction false} ValueBound(s: string)
    requires forall i :: 0 <= i < |s| ==> IsIdChar(s[i])
    ensures Value(s) < Pow36(|s|)
    ensures s != [] ==> (DigitFirst(s) <==> Value(s) >= 26 * Pow36(|s| - 1))
  {
    if |s| == 1 {
      assert s[..0] == [];
      assert Pow36(1) == 36 && Pow36(0) == 1;
    } else if s != [] {
      var rest := s[..|s| - 1];
      ValueBound(rest);
      assert rest[0] == s[0];
      assert Pow36(|s| - 1) == 36 * Pow36(|s| - 2);
    }
  }

  lemma {:induction false} ValueInjective(s: string, t: string)
    requires IsId(s) && IsId(t) && |s| == |t| && Value(s) == Value(t)
    ensures s == t
  {
    var n := |s| - 1;
    assert Digit(s[n]) == Digit(t[n]) && Value(s[..n]) == Value(t[..n]);
    assert s[n] == t[n];
    assert s == s[..n] + [s[n]] && t == t[..n] + [t[n]];
    if n > 0 {
      ValueInjective(s[..n], t[..n]);
    }
  }

  /** A turn adds one to the value, except at the largest value of that length. */
  lemma {:induction false} SuccAddsOne(s: string)
    requires IsId(s)
    ensures Value(Succ(s)) == if Value(s) == Pow36(|s|) - 1 then 26 * Pow36(|s| - 1) else Value(s) + 1
  {
    hide Value, Succ, Pow36;
    var n := |s| - 1;
    ValueStep(s);
    ValueStep(Succ(s));
    SuccStep(s);
    ValueBound(s[..n]);
    if n == 0 {
      Least();
      assert s[..0] == [] && Succ(s)[..0] == [];
    } else if s[n] == '9' {
      SuccAddsOne(s[..n]);
      ValueStep(s[..n]);
    }
  }

  /** What a turn does to the last position, and whether it carries. */
  lemma Turn(s: string)
    requires IsId(s)
    ensures var n := |s| - 1; var c := NextChar(s[n], n == 0);
      Succ(s) == (if n > 0 && c == 'A' then Succ(s[..n]) else s[..n]) + [c]
  {
  }

  lemma Regroup(s: string, c: char, t: string)
    ensures s + [c] + t == s + ([c] + t)
  {
  }

  lemma Least()
    ensures Pow36(0) == 1 && Value([]) == 0
  {
  }

  lemma ValueStep(s: string)
    requires IsId(s)
    ensures Value(s) == 36 * Value(s[..|s| - 1]) + Digit(s[|s| - 1]) && Pow36(|s|) == 36 * Pow36(|s| - 1)
  {
  }

  lemma SuccStep(s: string)
    requires IsId(s)
    ensures var n := |s| - 1;
      if n > 0 && s[n] == '9' then Succ(s)[..n] == Succ(s[..n]) && Succ(s)[n] == 'A'
      else Succ(s)[..n] == s[..n] && Succ(s)[n] == NextChar(s[n], n == 0)
  {
  }

  /** The largest value is all nines, and its turn is '0' followed by all 'A'. */
  lemma {:induction false} AllNines(s: string)
    requires IsId(s)
    ensures Value(s) == Pow36(|s|) - 1 <==> forall i :: 0 <= i < |s| ==> s[i] == '9'
    ensures Value(s) == Pow36(|s|) - 1 ==> Succ(s) == seq(|s|, i => if i == 0 then '0' else 'A')
  {
    var n := |s| - 1;
    var rest := s[..n];
    ValueBound(rest);
    assert Pow36(|s|) == 36 * Pow36(n);
    if n == 0 {
      assert rest == [] && Pow36(0) == 1;
    } else {
      AllNines(rest);
      assert forall i :: 0 <= i < n ==> rest[i] == s[i];
    }
  }

  /** Within one cycle the value counts up and wraps from the top to the lowest digit-first id. */
  lemma {:induction false} NthValue(s: string, k: nat)
    requires DigitFirst(s) && k <= 10 * Pow36(|s| - 1)
    ensures DigitFirst(Nth(s, k))
    ensures Value(Nth(s, k)) == if Value(s) + k < Pow36(|s|) then Value(s) + k
                                else Value(s) + k - 10 * Pow36(|s| - 1)
  {
    hide Nth, Succ, Value, Pow36;
    ValueBound(s);
    NthStep(s, k);
    if k > 0 {
      NthValue(s, k - 1);
      SuccAddsOne(Nth(s, k - 1));
      ValueBound(Nth(s, k));
      OneMore(Value(s), k, Pow36(|s| - 1), Value(Nth(s, k - 1)));
    }
  }

  lemma NthStep(s: string, k: nat)
    requires IsId(s)
    ensures Nth(s, k) == if k == 0 then s else Succ(Nth(s, k - 1))
    ensures Pow36(|s|) == 36 * Pow36(|s| - 1)
  {
  }

  /** One more step around the cycle. */
  lemma OneMore(v: int, k: int, p: int, before: int)
    requires 0 < k <= 10 * p && 26 * p <= v < 36 * p
    requires before == if v + (k - 1) < 36 * p then v + (k - 1) else v + (k - 1) - 10 * p
    ensures (if before == 36 * p - 1 then 26 * p else before + 1) == if v + k < 36 * p then v + k else v + k - 10 * p
    ensures v + k < 36 * p || v + k - 10 * p >= 26 * p
  {
  }

  /** On digit-first ids the odometer is one cycle of length 10 * 36^(n-1): every id of that length
      is reached within it, and the start again only at its end. */
  lemma OneCycle(s: string, t: string) returns (k: nat)
    requires DigitFirst(s) && DigitFirst(t) && |s| == |t|
    ensures 1 <= k <= 10 * Pow36(|s| - 1) && Nth(s, k) == t
    ensures forall j :: 1 <= j < k ==> Nth(s, j) != t
    ensures s == t ==> k == 10 * Pow36(|s| - 1)
  {
    var p := Pow36(|s| - 1);
    assert Pow36(|s|) == 36 * p;
    ValueBound(s);
    ValueBound(t);
    var v, f := Value(s), Value(t);
    assert f >= 26 * p && v < 36 * p;
    k := if v < f then f - v else 10 * p + f - v;
    NthValue(s, k);
    ValueInjective(Nth(s, k), t);
    forall j | 1 <= j < k
      ensures Nth(s, j) != t
    {
      NthValue(s, j);
    }
  }

  // ---------- the generator ----------

  lemma {:induction false} NthShift(s: string, k: nat)
    requires IsId(s)
    ensures Nth(Succ(s), k) == Nth(s, k + 1)
  {
    if k > 0 {
      NthShift(s, k - 1);
    }
  }

  /** The ids that come up after s: the digit-first ones, and while s is letter-first the higher ones. */
  ghost predicate ComesUp(s: string, t: string)
    requires IsId(s)
  {
    IsId(t) && |t| == |s| && (DigitFirst(t) || (!DigitFirst(s) && Value(t) > Value(s)))
  }

  lemma NextComesUp(s: string, t: string)
    requires IsId(s) && ComesUp(s, t) && !DigitFirst(s)
    ensures Value(s) + 1 == Value(Succ(s)) < Pow36(|s|)
    ensures Succ(s) == t || ComesUp(Succ(s), t)
  {
    hide Value, Succ, Pow36;
    ValueStep(s);
    ValueBound(s);
    ValueBound(t);
    SuccAddsOne(s);
    ValueBound(Succ(s));
    if Value(Succ(s)) == Value(t) {
      ValueInjective(Succ(s), t);
    }
  }

  /** Each of them does. */
  lemma {:induction false} Reaches(s: string, t: string) returns (k: nat)
    requires IsId(s) && ComesUp(s, t)
    ensures k >= 1 && Nth(s, k) == t
    decreases Pow36(|s|) - Value(s)
  {
    if DigitFirst(s) {
      k := OneCycle(s, t);
    } else {
      NextComesUp(s, t);
      hide ComesUp, Value;
      if Succ(s) == t {
        k := 1;
        assert Nth(s, 0) == s;
      } else {
        k := Reaches(Succ(s), t);
        NthShift(s, k);
        k := k + 1;
      }
    }
  }

  /** And no other. */
  lemma {:induction false} OnlyThese(s: string, k: nat)
    requires IsId(s) && k >= 1
    ensures ComesUp(s, Nth(s, k))
  {
    var t := Nth(s, k - 1);
    if k > 1 {
      OnlyThese(s, k - 1);
    }
    SuccAddsOne(t);
    ValueBound(t);
    ValueBound(Succ(t));
    assert Pow36(|s|) == 36 * Pow36(|s| - 1);
  }

  ghost predicate FreeAfter(s: string, prefix: string, used: set<string>, k: nat)
    requires IsId(s)
  {
    k >= 1 && prefix + Nth(s, k) !in used
  }

  ghost predicate FreeAhead(s: string, prefix: string, used: set<string>, t: string)
    requires IsId(s)
  {
    ComesUp(s, t) && prefix + t !in used
  }

  /** The search ends if and only if one of them is free. */
  lemma EndsExactly(s: string, prefix: string, used: set<string>)
    requires IsId(s)
    ensures (exists k :: FreeAfter(s, prefix, used, k)) <==> exists t :: FreeAhead(s, prefix, used, t)
  {
    if k :| FreeAfter(s, prefix, used, k) {
      OnlyThese(s, k);
      assert FreeAhead(s, prefix, used, Nth(s, k));
    }
    if t :| FreeAhead(s, prefix, used, t) {
      var k := Reaches(s, t);
      assert FreeAfter(s, prefix, used, k);
    }
  }

  /** With every digit-first id used, a letter-first one is still found if a higher one is free: "AB" after "AA". */
  lemma LetterFirstIsFound(prefix: string, used: set<string>)
    requires prefix + "AB" !in used
    ensures FreeAfter("AA", prefix, used, 1) && !DigitFirst("AB")
  {
    assert Succ("AA") == "AB" by {
      assert "AA"[..1] == "A";
    }
    assert Nth("AA", 1) == Succ(Nth("AA", 0));
  }

  /** The static string of one of the two retrieve functions. */
  class Generator {
    var current: array<char>

    ghost predicate Valid()
      reads this, current
    {
      IsId(current[..])
    }

    /** The counter of UID_Retrieve. */
    constructor Uid()
      ensures Valid() && fresh(current) && current[..] == "AAAAAA"
    {
      current := new char[6](_ => 'A');
    }

    /** The counter of SID_Retrieve, started from the configured server id. */
    constructor Sid(configured: string)
      requires configured == [] || IsId(configured)
      ensures Valid() && fresh(current) && current[..] == if configured == [] then "00A" else configured
    {
      var start := if configured == [] then "00A" else configured;
      current := new char[|start|](i requires 0 <= i < |start| => start[i]);
      new;
      assert current[..] == start;
    }

    /** The carry loop: turn positions from the right until one does not come out as 'A'. */
    method Advance()
      requires Valid()
      modifies current
      ensures Valid() && current[..] == Succ(old(current[..]))
    {
      hide Succ;
      ghost var before, tail: string := current[..], "";
      var pos := current.Length - 1;
      assert before[..pos + 1] == before;
      while true
        invariant 0 <= pos < current.Length == |before|
        invariant current[..] == before[..pos + 1] + tail
        invariant Succ(before) == Succ(before[..pos + 1]) + tail
        decreases pos
      {
        ghost var shown := before[..pos + 1];
        Turn(shown);
        assert shown[pos] == current[pos] && shown[..pos] == before[..pos];
        var c := NextChar(current[pos], pos == 0);
        current[pos] := c;
        assert current[..] == before[..pos] + [c] + tail;
        if pos == 0 || c != 'A' {
          break;
        }
        Regroup(Succ(before[..pos]), c, tail);
        Regroup(before[..pos], c, tail);
        tail := [c] + tail;
        pos := pos - 1;
      }
    }

    /** UID_Retrieve and SID_Retrieve: the first id after the current one that is not in use. */
    method Retrieve(prefix: string, used: set<string>, requiresId: bool, ghost free: string)
      returns (id: string, ghost k: nat)
      requires Valid()
      requires requiresId ==> FreeAhead(current[..], prefix, used, free)
      modifies current
      ensures Valid()
      ensures !requiresId ==> id == "" && current[..] == old(current[..])
      ensures requiresId ==> k >= 1 && current[..] == Nth(old(current[..]), k)
      ensures requiresId ==> id == prefix + current[..] && id !in used
      ensures requiresId ==> forall j :: 1 <= j < k ==> prefix + Nth(old(current[..]), j) in used
    {
      k := 0;
      if !requiresId {
        return "", 0;
      }
      ghost var start := current[..];
      ghost var last := Reaches(start, free);
      while true
        invariant Valid() && current[..] == Nth(start, k)
        invariant forall j :: 1 <= j <= k ==> prefix + Nth(start, j) in used
        invariant k < last
        decreases last - k
      {
        Advance();
        k := k + 1;
        if prefix + current[..] !in used {
          break;
        }
      }
      id := prefix + current[..];
    }
  }
}
