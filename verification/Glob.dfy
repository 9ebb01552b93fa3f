/** The wildcard matcher of src/misc.cpp: Anope::Match without its regular expression mode. */
module Glob {

  /** How two characters are compared: exactly, or through the case map in use. */
  datatype CaseRule = CaseRule(caseSensitive: bool, lower: char -> char) {

    /** One subject character against one mask character that is not a star. */
    predicate Fits(c: char, wild: char) {
      wild == '?' || (if caseSensitive then wild == c else lower(wild) == lower(c))
    }

    /** The same string, up to the case map unless that matters. */
    predicate Same(a: string, b: string) {
      |a| == |b| && forall i :: 0 <= i < |a| ==> if caseSensitive then a[i] == b[i] else lower(a[i]) == lower(b[i])
    }

    /** No subject character is taken for the terminator that the loop reads one past the mask. */
    ghost predicate NulFree(str: string) {
      forall i :: 0 <= i < |str| ==> !Fits(str[i], '\0')
    }
  }

  /** The meaning of a mask: a star stands for any run of characters, '?' for any one character. */
  ghost predicate Globs(rule: CaseRule, str: string, mask: string)
    decreases |mask|
  {
    if mask == [] then str == []
    else if mask[0] == '*' then exists k :: 0 <= k <= |str| && Globs(rule, str[k..], mask[1..])
    else str != [] && rule.Fits(str[0], mask[0]) && Globs(rule, str[1..], mask[1..])
  }

  predicate EndsInTwoStars(mask: string) {
    |mask| >= 2 && mask[|mask| - 1] == '*' && mask[|mask| - 2] == '*'
  }

  function StripStars(mask: string): (core: string)
    ensures |core| <= |mask| && core == mask[..|core|]
    ensures core != [] ==> core[|core| - 1] != '*'
    ensures forall i :: |core| <= i < |mask| ==> mask[i] == '*'
  {
    if mask != [] && mask[|mask| - 1] == '*' then StripStars(mask[..|mask| - 1]) else mask
  }

  /** The mask that the loop really implements: after the subject is used up only one star is
      skipped, so a tail of two or more stars asks for at least one more character. */
  function EffectiveMask(mask: string): string {
    if EndsInTwoStars(mask) then StripStars(mask) + "?*" else mask
  }

  /** What the loop decides from a pair of suffixes; differs from Globs only on an empty subject. */
  ghost predicate Accepts(rule: CaseRule, str: string, mask: string)
    decreases |mask|, 0
  {
    if str == [] then mask == [] || mask == "*"
    else if mask == [] then false
    else if mask[0] == '*' then |mask| == 1 || AcceptsFrom(rule, str, mask[1..], 0)
    else rule.Fits(str[0], mask[0]) && Accepts(rule, str[1..], mask[1..])
  }

  /** Some suffix of str starting at lo or later is accepted. */
  ghost predicate AcceptsFrom(rule: CaseRule, str: string, mask: string, lo: nat)
    decreases |mask|, 1
  {
    exists k :: lo <= k <= |str| && Accepts(rule, str[k..], mask)
  }

  const NPOS: nat := 0xFFFF_FFFF_FFFF_FFFF

  ghost predicate StarFree(mask: string) {
    forall i :: 0 <= i < |mask| ==> mask[i] != '*'
  }

  // ---------- the backtracking argument ----------

  /** A star that accepts a later suffix accepts every earlier one. */
  lemma {:induction false} StarAbsorbs(rule: CaseRule, str: string, mask: string, i: nat, j: nat)
    requires i <= j <= |str| && mask != [] && mask[0] == '*'
    requires Accepts(rule, str[j..], mask)
    ensures Accepts(rule, str[i..], mask)
  {
    if i < |str| && |mask| > 1 {
      assert str[j..] != [];
      var k :| 0 <= k <= |str[j..]| && Accepts(rule, str[j..][k..], mask[1..]);
      assert str[j..][k..] == str[j + k..] == str[i..][j + k - i..];
    }
  }

  /** A star-free segment in front of a mask uses up exactly its own length. */
  lemma {:induction false} SegmentConsumes(rule: CaseRule, str: string, seg: string, rest: string)
    requires StarFree(seg) && Accepts(rule, str, seg + rest)
    ensures |seg| <= |str| && Accepts(rule, str[|seg|..], rest)
    decreases |seg|
  {
    if seg == [] {
      assert seg + rest == rest && str[0..] == str;
    } else {
      assert (seg + rest)[0] == seg[0];
      assert (seg + rest)[1..] == seg[1..] + rest;
      assert str != [];
      SegmentConsumes(rule, str[1..], seg[1..], rest);
      assert str[1..][|seg| - 1..] == str[|seg|..];
    }
  }

  /** Once a later star is reached, no match through an earlier restart is lost. */
  lemma LaterStarSuffices(rule: CaseRule, str: string, mask: string, s: nat, m: nat, sp: nat, mp: nat)
    requires s <= |str| && mp <= m < |mask| && mask[m] == '*' && StarFree(mask[mp..m])
    requires sp >= 1 && s - (sp - 1) == m - mp
    requires AcceptsFrom(rule, str, mask[mp..], sp)
    ensures Accepts(rule, str[s..], mask[m..])
  {
    var k :| sp <= k <= |str| && Accepts(rule, str[k..], mask[mp..]);
    assert mask[mp..] == mask[mp..m] + mask[m..];
    SegmentConsumes(rule, str[k..], mask[mp..m], mask[m..]);
    assert str[k..][m - mp..] == str[k + m - mp..];
    StarAbsorbs(rule, str, mask[m..], s, k + m - mp);
  }

  /** When the subject is used up, a later restart is too short to match. */
  lemma NoLaterRestart(rule: CaseRule, str: string, mask: string, m: nat, sp: nat, mp: nat)
    requires mp <= m <= |mask| && StarFree(mask[mp..m])
    requires sp >= 1 && |str| - (sp - 1) == m - mp
    ensures !AcceptsFrom(rule, str, mask[mp..], sp)
  {
    if AcceptsFrom(rule, str, mask[mp..], sp) {
      var k :| sp <= k <= |str| && Accepts(rule, str[k..], mask[mp..]);
      assert mask[mp..] == mask[mp..m] + mask[m..];
      SegmentConsumes(rule, str[k..], mask[mp..m], mask[m..]);
    }
  }

  lemma FromStep(rule: CaseRule, str: string, mask: string, lo: nat)
    requires lo <= |str|
    ensures AcceptsFrom(rule, str, mask, lo) <==> Accepts(rule, str[lo..], mask) || AcceptsFrom(rule, str, mask, lo + 1)
  {
  }

  lemma StarOpens(rule: CaseRule, str: string, mask: string, s: nat, m: nat)
    requires s < |str| && m + 1 < |mask| && mask[m] == '*'
    ensures Accepts(rule, str[s..], mask[m..]) <==> AcceptsFrom(rule, str, mask[m + 1..], s)
  {
    assert mask[m..][1..] == mask[m + 1..];
    if Accepts(rule, str[s..], mask[m..]) {
      assert AcceptsFrom(rule, str[s..], mask[m + 1..], 0);
      var k :| 0 <= k <= |str[s..]| && Accepts(rule, str[s..][k..], mask[m + 1..]);
      assert str[s..][k..] == str[s + k..];
    }
    if AcceptsFrom(rule, str, mask[m + 1..], s) {
      var k :| s <= k <= |str| && Accepts(rule, str[k..], mask[m + 1..]);
      assert str[s..][k - s..] == str[k..];
    }
  }

  /** The state of the second loop: before any star, after the fall-back to npos, or after a star,
      where the answer is the current attempt or any restart of the last star. */
  ghost predicate Searching(rule: CaseRule, str: string, mask: string, s: nat, m: nat, sp: nat, mp: nat) {
    if mp == NPOS && s == NPOS then m == NPOS && !Accepts(rule, str, mask)
    else if mp == NPOS then
      && s <= |str| && m <= |mask| && (s < |str| ==> m == |mask| || mask[m] == '*')
      && (Accepts(rule, str, mask) <==> Accepts(rule, str[s..], mask[m..]))
    else
      && mp <= m <= |mask| && mp < |mask| && 1 <= sp && sp - 1 <= s <= |str|
      && s - (sp - 1) == m - mp && StarFree(mask[mp..m])
      && (Accepts(rule, str, mask) <==> Accepts(rule, str[s..], mask[m..]) || AcceptsFrom(rule, str, mask[mp..], sp))
  }

  lemma StarStep(rule: CaseRule, str: string, mask: string, s: nat, m: nat, sp: nat, mp: nat)
    requires |str| < NPOS && |mask| < NPOS && Searching(rule, str, mask, s, m, sp, mp)
    requires s < |str| && m < |mask| && mask[m] == '*'
    ensures m + 1 == |mask| ==> Accepts(rule, str, mask)
    ensures m + 1 < |mask| ==> Searching(rule, str, mask, s, m + 1, s + 1, m + 1)
  {
    if mp != NPOS && AcceptsFrom(rule, str, mask[mp..], sp) {
      LaterStarSuffices(rule, str, mask, s, m, sp, mp);
    }
    assert Accepts(rule, str, mask) <==> Accepts(rule, str[s..], mask[m..]);
    if m + 1 < |mask| {
      StarOpens(rule, str, mask, s, m);
      FromStep(rule, str, mask[m + 1..], s);
    }
  }

  lemma FitStep(rule: CaseRule, str: string, mask: string, s: nat, m: nat, sp: nat, mp: nat)
    requires |str| < NPOS && |mask| < NPOS && Searching(rule, str, mask, s, m, sp, mp)
    requires s < |str| && m < |mask| && mask[m] != '*' && rule.Fits(str[s], mask[m])
    ensures mp != NPOS && Searching(rule, str, mask, s + 1, m + 1, sp, mp)
  {
    assert str[s..][1..] == str[s + 1..] && mask[m..][1..] == mask[m + 1..];
    assert mask[mp..m + 1] == mask[mp..m] + [mask[m]];
  }

  lemma BacktrackStep(rule: CaseRule, str: string, mask: string, s: nat, m: nat, sp: nat, mp: nat)
    requires |str| < NPOS && |mask| < NPOS && Searching(rule, str, mask, s, m, sp, mp)
    requires s < |str| && (m < |mask| ==> mask[m] != '*' && !rule.Fits(str[s], mask[m]))
    requires mp == NPOS ==> sp == NPOS
    ensures Searching(rule, str, mask, sp, mp, (sp + 1) % (NPOS + 1), mp)
  {
    assert !Accepts(rule, str[s..], mask[m..]);
    if mp != NPOS {
      FromStep(rule, str, mask[mp..], sp);
      assert mask[mp..mp] == [];
    }
  }

  lemma Exhausted(rule: CaseRule, str: string, mask: string, s: nat, m: nat, sp: nat, mp: nat)
    requires |str| < NPOS && |mask| < NPOS && Searching(rule, str, mask, s, m, sp, mp) && s >= |str|
    ensures Accepts(rule, str, mask) <==> m == |mask| || (m + 1 == |mask| && mask[m] == '*')
  {
    if mp != NPOS {
      NoLaterRestart(rule, str, mask, m, sp, mp);
    }
    if m < |mask| {
      assert mask[m..] == [mask[m]] + mask[m + 1..];
    }
  }

  /** Anope::Match: the literal prefix loop, then the loop that falls back to the last star only. */
  method Match(str: string, mask: string, rule: CaseRule) returns (r: bool)
    requires rule.NulFree(str) && |str| < NPOS && |mask| < NPOS
    ensures r <==> Globs(rule, str, EffectiveMask(mask))
    ensures !EndsInTwoStars(mask) ==> (r <==> Globs(rule, str, mask))
    ensures r ==> Globs(rule, str, mask)
  {
    hide Searching, Accepts, EffectiveMask, Globs, EndsInTwoStars, StarFree;
    MaskMeaning(rule, str, mask);
    var s: nat, m: nat := 0, 0;
    assert str[0..] == str && mask[0..] == mask;
    while s < |str| && m < |mask| && mask[m] != '*'
      invariant s <= |str| && m <= |mask|
      invariant Accepts(rule, str, mask) <==> Accepts(rule, str[s..], mask[m..])
    {
      LiteralStep(rule, str, mask, s, m);
      if !rule.Fits(str[s], mask[m]) {
        return false;
      }
      m, s := m + 1, s + 1;
    }

    var sp: nat, mp: nat := NPOS, NPOS;
    SearchStarts(rule, str, mask, s, m);
    while s < |str|
      invariant Searching(rule, str, mask, s, m, sp, mp)
      invariant mp == NPOS ==> sp == NPOS || s == NPOS
      decreases if mp == NPOS then |mask| + 1 else |mask| - mp, if mp == NPOS then 0 else |str| + 1 - sp, |str| - s
    {
      SearchBounds(rule, str, mask, s, m, sp, mp);
      // reading one past the mask yields the terminator
      var wild := if m < |mask| then mask[m] else '\0';
      if wild == '*' {
        StarStep(rule, str, mask, s, m, sp, mp);
        m := m + 1;
        if m == |mask| {
          return true;
        }
        mp := m;
        sp := s + 1;
      } else if rule.Fits(str[s], wild) {
        FitStep(rule, str, mask, s, m, sp, mp);
        m, s := m + 1, s + 1;
      } else {
        BacktrackStep(rule, str, mask, s, m, sp, mp);
        m := mp;
        s := sp;
        sp := (sp + 1) % (NPOS + 1);
      }
    }
    Exhausted(rule, str, mask, s, m, sp, mp);
    if m < |mask| && mask[m] == '*' {
      m := m + 1;
    }
    r := m == |mask|;
  }

  lemma LiteralStep(rule: CaseRule, str: string, mask: string, s: nat, m: nat)
    requires s < |str| && m < |mask| && mask[m] != '*'
    ensures Accepts(rule, str[s..], mask[m..]) <==> rule.Fits(str[s], mask[m]) && Accepts(rule, str[s + 1..], mask[m + 1..])
  {
    assert str[s..][1..] == str[s + 1..] && mask[m..][1..] == mask[m + 1..];
  }

  lemma SearchStarts(rule: CaseRule, str: string, mask: string, s: nat, m: nat)
    requires |str| < NPOS && |mask| < NPOS && s <= |str| && m <= |mask|
    requires s < |str| ==> m == |mask| || mask[m] == '*'
    requires Accepts(rule, str, mask) <==> Accepts(rule, str[s..], mask[m..])
    ensures Searching(rule, str, mask, s, m, NPOS, NPOS)
  {
  }

  lemma SearchBounds(rule: CaseRule, str: string, mask: string, s: nat, m: nat, sp: nat, mp: nat)
    requires |str| < NPOS && |mask| < NPOS && Searching(rule, str, mask, s, m, sp, mp) && s < |str|
    ensures m <= |mask| && (mp == NPOS ==> m == |mask| || mask[m] == '*')
    ensures mp != NPOS ==> mp <= m && mp < |mask| && 1 <= sp && sp - 1 <= s
  {
  }

  lemma MaskMeaning(rule: CaseRule, str: string, mask: string)
    ensures Accepts(rule, str, mask) <==> Globs(rule, str, EffectiveMask(mask))
    ensures !EndsInTwoStars(mask) ==> EffectiveMask(mask) == mask
    ensures Accepts(rule, str, mask) ==> Globs(rule, str, mask)
  {
    EffectiveMaskIsExact(rule, str, mask);
    if Globs(rule, str, EffectiveMask(mask)) {
      EffectiveMaskIsSound(rule, str, mask);
    }
  }

  // ---------- what the loop accepts, in terms of the declarative relation ----------

  lemma {:induction false} GlobsOneStar(rule: CaseRule, str: string)
    ensures Globs(rule, str, "*")
  {
    assert Globs(rule, str[|str|..], "*"[1..]);
  }

  lemma {:induction false} EmptySubject(rule: CaseRule, mask: string)
    ensures Globs(rule, [], mask) <==> (forall i :: 0 <= i < |mask| ==> mask[i] == '*')
    decreases |mask|
  {
    if mask != [] && mask[0] == '*' {
      EmptySubject(rule, mask[1..]);
      var e: string := [];
      assert e[0..] == e;
      assert forall i :: 1 <= i < |mask| ==> mask[i] == mask[1..][i - 1];
    }
  }

  /** Removing the first character of a mask removes it from the effective mask, except in a tail of stars. */
  lemma EffectiveTail(mask: string)
    requires mask != [] && !(forall i :: 0 <= i < |mask| ==> mask[i] == '*')
    ensures EffectiveMask(mask) != [] && EffectiveMask(mask)[0] == mask[0]
    ensures EffectiveMask(mask)[1..] == EffectiveMask(mask[1..])
  {
    StripTail(mask);
    if EndsInTwoStars(mask) {
      var core := StripStars(mask);
      assert core != [] && core[0] == mask[0];
      assert EndsInTwoStars(mask[1..]);
      assert (core + "?*")[1..] == core[1..] + "?*";
    } else if EndsInTwoStars(mask[1..]) {
      assert false;
    }
  }

  lemma {:induction false} StripTail(mask: string)
    requires mask != [] && !(forall i :: 0 <= i < |mask| ==> mask[i] == '*')
    ensures StripStars(mask) != [] && StripStars(mask)[1..] == StripStars(mask[1..])
    decreases |mask|
  {
    if mask[|mask| - 1] == '*' {
      var init := mask[..|mask| - 1];
      if forall i :: 0 <= i < |init| ==> init[i] == '*' {
        assert false;
      }
      StripTail(init);
      assert mask[1..][..|mask| - 2] == init[1..];
    } else if |mask| > 1 {
      assert mask[1..][|mask| - 2] == mask[|mask| - 1];
    }
  }

  lemma {:induction false} AllStars(rule: CaseRule, str: string, mask: string)
    requires |mask| >= 1 && forall i :: 0 <= i < |mask| ==> mask[i] == '*'
    ensures Globs(rule, str, mask)
    ensures Accepts(rule, str, mask) <==> |mask| == 1 || str != []
    decreases |mask|
  {
    assert str[0..] == str;
    if |mask| == 1 {
      assert mask == "*";
      GlobsOneStar(rule, str);
    } else {
      AllStars(rule, str, mask[1..]);
      if str != [] {
        assert Accepts(rule, str[0..], mask[1..]);
        assert AcceptsFrom(rule, str, mask[1..], 0);
      }
    }
  }

  lemma QuestionStar(rule: CaseRule, str: string)
    ensures Globs(rule, str, "?*") <==> str != []
  {
    if str != [] {
      GlobsOneStar(rule, str[1..]);
      assert "?*"[1..] == "*";
    }
  }

  lemma {:induction false} EffectiveMaskIsExact(rule: CaseRule, str: string, mask: string)
    ensures Accepts(rule, str, mask) <==> Globs(rule, str, EffectiveMask(mask))
    decreases |mask|
  {
    var eff := EffectiveMask(mask);
    if forall i :: 0 <= i < |mask| ==> mask[i] == '*' {
      if |mask| >= 1 {
        AllStars(rule, str, mask);
        if |mask| == 1 {
          assert mask == "*";
        } else {
          assert StripStars(mask) == [];
          assert eff == "?*";
          QuestionStar(rule, str);
        }
      }
    } else {
      EffectiveTail(mask);
      EmptySubject(rule, eff);
      if str == [] {
        if EndsInTwoStars(mask) {
          assert eff[|eff| - 2] == '?';
        }
      } else if mask[0] == '*' {
        forall k | 0 <= k <= |str|
          ensures Accepts(rule, str[k..], mask[1..]) <==> Globs(rule, str[k..], eff[1..])
        {
          EffectiveMaskIsExact(rule, str[k..], mask[1..]);
        }
      } else {
        EffectiveMaskIsExact(rule, str[1..], mask[1..]);
      }
    }
  }

  lemma {:induction false} EffectiveMaskIsSound(rule: CaseRule, str: string, mask: string)
    requires Globs(rule, str, EffectiveMask(mask))
    ensures Globs(rule, str, mask)
    decreases |mask|
  {
    var eff := EffectiveMask(mask);
    if mask != [] {
      if forall i :: 0 <= i < |mask| ==> mask[i] == '*' {
        AllStars(rule, str, mask);
      } else {
        EffectiveTail(mask);
        if mask[0] == '*' {
          var k :| 0 <= k <= |str| && Globs(rule, str[k..], eff[1..]);
          EffectiveMaskIsSound(rule, str[k..], mask[1..]);
        } else {
          EffectiveMaskIsSound(rule, str[1..], mask[1..]);
        }
      }
    }
  }

  /** Where the matcher misses a match: exactly the masks that end in two stars, on subjects whose
      every match leaves nothing for that tail. */
  lemma MissedMatches(rule: CaseRule, str: string, mask: string)
    ensures Globs(rule, str, mask) && !Globs(rule, str, EffectiveMask(mask)) <==>
            EndsInTwoStars(mask) && Globs(rule, str, StripStars(mask)) &&
            (forall k :: 0 <= k < |str| ==> !Globs(rule, str[..k], StripStars(mask)))
  {
    if EndsInTwoStars(mask) {
      var core := StripStars(mask);
      CoreThen(rule, str, core, mask[|core|..]);
      CoreThen(rule, str, core, "?*");
      assert mask == core + mask[|core|..];
      forall k | 0 <= k <= |str|
        ensures Globs(rule, str[k..], mask[|core|..])
        ensures Globs(rule, str[k..], "?*") <==> k < |str|
      {
        AllStars(rule, str[k..], mask[|core|..]);
        QuestionStar(rule, str[k..]);
      }
      assert str[..|str|] == str;
    }
  }

  /** A mask followed by another one matches by splitting the subject. */
  lemma CoreThen(rule: CaseRule, str: string, core: string, rest: string)
    ensures Globs(rule, str, core + rest) <==>
            exists k :: 0 <= k <= |str| && Globs(rule, str[..k], core) && Globs(rule, str[k..], rest)
  {
    hide Globs;
    if Globs(rule, str, core + rest) {
      var k := SplitMatch(rule, str, core, rest);
    }
    forall k | 0 <= k <= |str| && Globs(rule, str[..k], core) && Globs(rule, str[k..], rest)
      ensures Globs(rule, str, core + rest)
    {
      JoinMatch(rule, str, k, core, rest);
    }
  }

  lemma EmptyMask(rule: CaseRule, str: string)
    ensures Globs(rule, str, []) <==> str == []
  {
  }

  lemma OneFit(rule: CaseRule, str: string, mask: string)
    requires mask != [] && mask[0] != '*'
    ensures Globs(rule, str, mask) <==> str != [] && rule.Fits(str[0], mask[0]) && Globs(rule, str[1..], mask[1..])
  {
  }

  lemma StarGiven(rule: CaseRule, str: string, mask: string) returns (k: nat)
    requires mask != [] && mask[0] == '*' && Globs(rule, str, mask)
    ensures k <= |str| && Globs(rule, str[k..], mask[1..])
  {
    k :| 0 <= k <= |str| && Globs(rule, str[k..], mask[1..]);
  }

  lemma StarTaken(rule: CaseRule, str: string, mask: string, k: nat)
    requires mask != [] && mask[0] == '*' && k <= |str| && Globs(rule, str[k..], mask[1..])
    ensures Globs(rule, str, mask)
  {
  }

  /** Dropping j characters and cutting at k commute. */
  lemma DropAndCut(str: string, j: nat, k: nat)
    requires j <= k <= |str|
    ensures str[..k][j..] == str[j..][..k - j] && str[j..][k - j..] == str[k..]
  {
  }

  lemma FirstOfJoin(core: string, rest: string)
    requires core != []
    ensures core + rest != [] && (core + rest)[0] == core[0] && (core + rest)[1..] == core[1..] + rest
  {
  }

  lemma {:induction false} SplitMatch(rule: CaseRule, str: string, core: string, rest: string) returns (k: nat)
    requires Globs(rule, str, core + rest)
    ensures k <= |str| && Globs(rule, str[..k], core) && Globs(rule, str[k..], rest)
    decreases |core|
  {
    hide Globs;
    if core == [] {
      k := 0;
      assert core + rest == rest && str[0..] == str;
      EmptyMask(rule, str[..0]);
    } else {
      FirstOfJoin(core, rest);
      if core[0] == '*' {
        var j := StarGiven(rule, str, core + rest);
        k := SplitMatch(rule, str[j..], core[1..], rest);
        k := j + k;
        DropAndCut(str, j, k);
        StarTaken(rule, str[..k], core, j);
      } else {
        OneFit(rule, str, core + rest);
        k := SplitMatch(rule, str[1..], core[1..], rest);
        k := 1 + k;
        DropAndCut(str, 1, k);
        OneFit(rule, str[..k], core);
      }
    }
  }

  lemma {:induction false} JoinMatch(rule: CaseRule, str: string, k: nat, core: string, rest: string)
    requires k <= |str| && Globs(rule, str[..k], core) && Globs(rule, str[k..], rest)
    ensures Globs(rule, str, core + rest)
    decreases |core|
  {
    hide Globs;
    if core == [] {
      EmptyMask(rule, str[..k]);
      assert core + rest == rest && str[k..] == str;
    } else {
      FirstOfJoin(core, rest);
      if core[0] == '*' {
        var j := StarGiven(rule, str[..k], core);
        DropAndCut(str, j, k);
        JoinMatch(rule, str[j..], k - j, core[1..], rest);
        StarTaken(rule, str, core + rest, j);
      } else {
        OneFit(rule, str[..k], core);
        DropAndCut(str, 1, k);
        JoinMatch(rule, str[1..], k - 1, core[1..], rest);
        OneFit(rule, str, core + rest);
      }
    }
  }

  /** A mask without wildcards matches itself only, up to the case map unless that matters. */
  lemma LiteralMask(rule: CaseRule, str: string, mask: string)
    requires forall i :: 0 <= i < |mask| ==> mask[i] != '*' && mask[i] != '?'
    ensures EffectiveMask(mask) == mask && (Globs(rule, str, mask) <==> rule.Same(str, mask))
    ensures rule.caseSensitive ==> (Globs(rule, str, mask) <==> str == mask)
  {
    StarFreeMask(rule, str, mask);
  }

  /** Without stars a mask and its subject meet character by character. */
  lemma {:induction false} StarFreeMask(rule: CaseRule, str: string, mask: string)
    requires StarFree(mask)
    ensures Globs(rule, str, mask) <==> |str| == |mask| && forall i :: 0 <= i < |mask| ==>
      mask[i] == '?' || if rule.caseSensitive then str[i] == mask[i] else rule.lower(str[i]) == rule.lower(mask[i])
    decreases |mask|
  {
    if mask != [] && str != [] {
      OneFit(rule, str, mask);
      StarFreeMask(rule, str[1..], mask[1..]);
      assert str == [str[0]] + str[1..] && mask == [mask[0]] + mask[1..];
      hide Globs;
    } else {
      EmptyMask(rule, str);
    }
  }

  /** Two stars match nothing at all, which the matcher denies. */
  lemma TwoStarsMissNothing(rule: CaseRule)
    ensures Globs(rule, "", "**") && !Globs(rule, "", EffectiveMask("**"))
  {
    AllStars(rule, "", "**");
    assert "**"[..1] == "*" && "*"[..0] == "";
    assert StripStars("**") == "" by {
      assert StripStars("*") == StripStars("");
    }
    assert EffectiveMask("**") == "?*";
    QuestionStar(rule, "");
  }
}
