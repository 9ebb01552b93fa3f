/** The timer scheduler of src/timers.cpp. */
module Timers {

  class Timer {
    var trigger: int
    var secs: int

    constructor (now: int, timeFromNow: int)
      ensures trigger == now + (if timeFromNow < 0 then -timeFromNow else timeFromNow) && secs == timeFromNow
    {
      trigger := now + if timeFromNow < 0 then -timeFromNow else timeFromNow;
      secs := timeFromNow;
    }
  }

  /** One node of the multimap: its key and its timer. */
  type Entry = (int, Timer)

  ghost predicate SortedKeys(s: seq<Entry>) {
    forall i, j :: 0 <= i < j < |s| ==> s[i].0 <= s[j].0
  }

  ghost predicate DistinctTimers(s: seq<Entry>) {
    forall i, j :: 0 <= i < j < |s| ==> s[i].1 != s[j].1
  }

  ghost predicate Stored(s: seq<Entry>, t: Timer) {
    exists i :: 0 <= i < |s| && s[i].1 == t
  }

  /** multimap::upper_bound and lower_bound. */
  function UpperBound(s: seq<Entry>, key: int): (k: int)
    ensures 0 <= k <= |s|
    ensures forall i :: 0 <= i < k ==> s[i].0 <= key
    ensures k < |s| ==> s[k].0 > key
  {
    if s == [] || s[0].0 > key then 0 else 1 + UpperBound(s[1..], key)
  }

  function LowerBound(s: seq<Entry>, key: int): (k: int)
    ensures 0 <= k <= |s|
    ensures forall i :: 0 <= i < k ==> s[i].0 < key
    ensures k < |s| ==> s[k].0 >= key
  {
    if s == [] || s[0].0 >= key then 0 else 1 + LowerBound(s[1..], key)
  }

  /** multimap::emplace puts a node behind those with the same key. */
  function Emplace(s: seq<Entry>, e: Entry): seq<Entry> {
    var k := UpperBound(s, e.0);
    s[..k] + [e] + s[k..]
  }

  function EraseAt(s: seq<Entry>, i: int): seq<Entry>
    requires 0 <= i < |s|
  {
    s[..i] + s[i + 1..]
  }

  lemma EraseKeepsOrder(s: seq<Entry>, i: int)
    requires SortedKeys(s) && DistinctTimers(s) && 0 <= i < |s|
    ensures SortedKeys(EraseAt(s, i)) && DistinctTimers(EraseAt(s, i)) && !Stored(EraseAt(s, i), s[i].1)
    ensures forall k :: 0 <= k < |EraseAt(s, i)| ==> EraseAt(s, i)[k] == if k < i then s[k] else s[k + 1]
    ensures forall k :: 0 <= k < |s| && s[k].1 == s[i].1 ==> k == i
  {
  }

  lemma EmplaceMembers(s: seq<Entry>, e: Entry)
    ensures forall x :: x in Emplace(s, e) ==> x in s || x == e
  {
  }

  lemma EmplaceHas(s: seq<Entry>, e: Entry)
    ensures e in Emplace(s, e) && forall x :: x in s ==> x in Emplace(s, e)
  {
    var k := UpperBound(s, e.0);
    assert Emplace(s, e)[k] == e;
    assert s == s[..k] + s[k..];
  }

  lemma EmplaceKeepsOrder(s: seq<Entry>, e: Entry)
    requires SortedKeys(s)
    ensures SortedKeys(Emplace(s, e))
    ensures DistinctTimers(s) && !Stored(s, e.1) ==> DistinctTimers(Emplace(s, e))
  {
  }

  lemma {:induction false} UpperBoundBehind(front: seq<Entry>, back: seq<Entry>, key: int)
    requires forall i :: 0 <= i < |front| ==> front[i].0 <= key
    ensures UpperBound(front + back, key) == |front| + UpperBound(back, key)
    decreases |front|
  {
    if front == [] {
      assert front + back == back;
    } else {
      UpperBoundBehind(front[1..], back, key);
      assert (front + back)[1..] == front[1..] + back;
    }
  }

  /** A node with a larger key goes behind every node of the front part. */
  lemma EmplaceBehind(front: seq<Entry>, back: seq<Entry>, e: Entry)
    requires forall i :: 0 <= i < |front| ==> front[i].0 <= e.0
    ensures Emplace(front + back, e) == front + Emplace(back, e)
  {
    UpperBoundBehind(front, back, e.0);
    var k := UpperBound(back, e.0);
    hide UpperBound;
    assert (front + back)[..|front| + k] == front + back[..k] && (front + back)[|front| + k..] == back[k..];
    Regroup(front, back[..k], [e], back[k..]);
  }

  lemma Regroup(a: seq<Entry>, b: seq<Entry>, c: seq<Entry>, d: seq<Entry>)
    ensures a + b + c + d == a + (b + c + d)
  {
  }

  /** The entries that come due at now, which are a prefix of the sorted map. */
  function Due(s: seq<Entry>, now: int): (d: seq<Entry>)
    ensures |d| <= |s| && d == s[..|d|]
    ensures forall i :: 0 <= i < |d| ==> d[i].0 <= now
    ensures |d| < |s| ==> s[|d|].0 > now
  {
    s[..UpperBound(s, now)]
  }

  ghost function Intervals(secs: map<Timer, int>): Timer -> int {
    t => if t in secs then secs[t] else 0
  }

  /** The map after the due timers have fired: those whose callback says so are put back at
      now + secs, in the order in which they fired, among the entries that were not due. */
  ghost function Rearmed(rest: seq<Entry>, fired: seq<Entry>, now: int, secs: Timer -> int, again: Timer -> bool): seq<Entry>
    decreases |fired|
  {
    if fired == [] then rest
    else
      var before := Rearmed(rest, fired[..|fired| - 1], now, secs, again);
      var t := fired[|fired| - 1].1;
      if again(t) then Emplace(before, (now + secs(t), t)) else before
  }

  lemma RearmedStep(rest: seq<Entry>, fired: seq<Entry>, e: Entry, now: int, secs: Timer -> int, again: Timer -> bool)
    ensures Rearmed(rest, fired + [e], now, secs, again) ==
      var before := Rearmed(rest, fired, now, secs, again);
      if again(e.1) then Emplace(before, (now + secs(e.1), e.1)) else before
  {
    assert (fired + [e])[..|fired|] == fired;
  }

  /** What is in the map then. */
  lemma {:induction false} RearmedMembers(rest: seq<Entry>, fired: seq<Entry>, now: int, secs: Timer -> int, again: Timer -> bool, x: Entry)
    ensures x in Rearmed(rest, fired, now, secs, again) <==>
      x in rest || Repeated(fired, now, secs, again, x)
    decreases |fired|
  {
    hide Rearmed, Emplace, Repeated;
    if fired == [] {
      NoneRearmed(rest, now, secs, again);
      OneMoreFired([], x, now, secs, again, x);
    } else {
      var n := |fired| - 1;
      var front, t := fired[..n], fired[n].1;
      assert fired == front + [fired[n]];
      RearmedStep(rest, front, fired[n], now, secs, again);
      RearmedMembers(rest, front, now, secs, again, x);
      EmplaceHas(Rearmed(rest, front, now, secs, again), (now + secs(t), t));
      EmplaceMembers(Rearmed(rest, front, now, secs, again), (now + secs(t), t));
      OneMoreFired(front, fired[n], now, secs, again, x);
    }
  }

  lemma NoneRearmed(rest: seq<Entry>, now: int, secs: Timer -> int, again: Timer -> bool)
    ensures Rearmed(rest, [], now, secs, again) == rest
  {
  }

  /** The entry is of a timer that fired and is to be repeated, one interval from now. */
  ghost predicate Repeated(fired: seq<Entry>, now: int, secs: Timer -> int, again: Timer -> bool, x: Entry) {
    exists i :: 0 <= i < |fired| && fired[i].1 == x.1 && again(x.1) && x.0 == now + secs(x.1)
  }

  lemma OneMoreFired(front: seq<Entry>, e: Entry, now: int, secs: Timer -> int, again: Timer -> bool, x: Entry)
    ensures Repeated(front + [e], now, secs, again, x) <==>
      (again(e.1) && x == (now + secs(e.1), e.1)) || Repeated(front, now, secs, again, x)
    ensures !Repeated([], now, secs, again, x)
  {
    var all := front + [e];
    assert all[|front|] == e && forall i :: 0 <= i < |front| ==> all[i] == front[i];
  }

  lemma RepeatedAt(fired: seq<Entry>, now: int, secs: Timer -> int, again: Timer -> bool, i: nat)
    requires i < |fired| && again(fired[i].1)
    ensures Repeated(fired, now, secs, again, (now + secs(fired[i].1), fired[i].1))
  {
  }

  /** After n of the due timers have fired: the others are still in front, in order. */
  ghost predicate Progress(entries: seq<Entry>, start: seq<Entry>, n: nat, now: int, secs: Timer -> int, again: Timer -> bool) {
    var due := Due(start, now);
    && n <= |due|
    && entries == due[n..] + Rearmed(start[|due|..], due[..n], now, secs, again)
    && forall i :: |due| - n <= i < |entries| ==> entries[i].0 > now
  }

  lemma ProgressStart(start: seq<Entry>, now: int, secs: Timer -> int, again: Timer -> bool)
    requires SortedKeys(start)
    ensures Progress(start, start, 0, now, secs, again)
  {
    var due := Due(start, now);
    assert due[0..] == due && due[..0] == [] && start == due + start[|due|..];
  }

  /** What is left of the map once its first entry has fired. */
  function AfterTick(entries: seq<Entry>, now: int, secs: int, again: bool): seq<Entry>
    requires entries != []
  {
    var others := EraseAt(entries, 0);
    if again then Emplace(others, (now + secs, entries[0].1)) else others
  }

  /** A node that is not due goes behind the entries that are. */
  lemma EmplaceLater(pending: seq<Entry>, tail: seq<Entry>, e: Entry, now: int)
    requires forall i :: 0 <= i < |pending| ==> pending[i].0 <= now
    requires (forall i :: 0 <= i < |tail| ==> tail[i].0 > now) && e.0 > now
    ensures Emplace(pending + tail, e) == pending + Emplace(tail, e)
    ensures forall i :: 0 <= i < |Emplace(tail, e)| ==> Emplace(tail, e)[i].0 > now
  {
    EmplaceBehind(pending, tail, e);
  }

  ghost predicate Positive(due: seq<Entry>, secs: Timer -> int, again: Timer -> bool) {
    forall i :: 0 <= i < |due| && again(due[i].1) ==> secs(due[i].1) > 0
  }

  /** One turn of the loop takes the next due timer and leaves the rest as Rearmed says. */
  lemma ProgressStep(entries: seq<Entry>, start: seq<Entry>, n: nat, now: int, secs: Timer -> int, again: Timer -> bool)
    requires Progress(entries, start, n, now, secs, again)
    requires entries != [] && entries[0].0 <= now && Positive(Due(start, now), secs, again)
    ensures n < |Due(start, now)| && entries[0] == Due(start, now)[n]
    ensures Due(start, now)[..n + 1] == Due(start, now)[..n] + [entries[0]]
    ensures Progress(AfterTick(entries, now, secs(entries[0].1), again(entries[0].1)), start, n + 1, now, secs, again)
  {
    hide Rearmed, Due, Emplace, UpperBound, EraseAt;
    var due := Due(start, now);
    var tail := Rearmed(start[|due|..], due[..n], now, secs, again);
    FirstEntry(entries, due, n, tail, now);
    var e := due[n];
    RearmedStep(start[|due|..], due[..n], e, now, secs, again);
    if again(e.1) {
      EmplaceLater(due[n + 1..], tail, (now + secs(e.1), e.1), now);
    }
  }

  lemma FirstEntry(entries: seq<Entry>, due: seq<Entry>, n: nat, tail: seq<Entry>, now: int)
    requires n <= |due| && entries == due[n..] + tail && entries != [] && entries[0].0 <= now
    requires forall i :: |due| - n <= i < |entries| ==> entries[i].0 > now
    ensures n < |due| && entries[0] == due[n] && due[..n + 1] == due[..n] + [due[n]]
    ensures EraseAt(entries, 0) == due[n + 1..] + tail
    ensures forall i :: 0 <= i < |tail| ==> tail[i].0 > now
  {
    assert n < |due|;
    assert entries == [due[n]] + (due[n + 1..] + tail);
    assert forall i :: 0 <= i < |tail| ==> tail[i] == entries[|due| - n + i];
  }

  lemma ProgressEnd(entries: seq<Entry>, start: seq<Entry>, n: nat, now: int, secs: Timer -> int, again: Timer -> bool)
    requires Progress(entries, start, n, now, secs, again)
    requires entries == [] || entries[0].0 > now
    ensures n == |Due(start, now)|
    ensures entries == Rearmed(start[n..], Due(start, now), now, secs, again)
    ensures forall i :: 0 <= i < |entries| ==> entries[i].0 > now
  {
    var due := Due(start, now);
    assert due[..|due|] == due && due[|due|..] == [];
  }

  lemma DueExactly(s: seq<Entry>, now: int)
    requires SortedKeys(s) && DistinctTimers(s)
    ensures forall i :: 0 <= i < |s| ==> (s[i] in Due(s, now) <==> s[i].0 <= now)
    ensures forall i, j :: 0 <= i < j < |Due(s, now)| ==> Due(s, now)[i].1 != Due(s, now)[j].1 && Due(s, now)[i].0 <= Due(s, now)[j].0
  {
    var d := Due(s, now);
    forall i | 0 <= i < |s|
      ensures s[i] in d <==> s[i].0 <= now
    {
      if s[i].0 <= now {
        assert i < |d| && d[i] == s[i];
      }
    }
  }

  /** What is left: the timers that were not due, and of those that fired the ones to be repeated, one interval from now. */
  ghost predicate Ticked(start: seq<Entry>, fired: seq<Entry>, now: int, secs: Timer -> int, again: Timer -> bool, timers: seq<Entry>) {
    && (forall x :: x in timers ==> (x in start && x.0 > now) || Repeated(fired, now, secs, again, x))
    && (forall x :: x in start && x.0 > now ==> x in timers)
    && (forall i :: 0 <= i < |fired| && again(fired[i].1) ==> (now + secs(fired[i].1), fired[i].1) in timers)
  }

  lemma TickedMembers(start: seq<Entry>, now: int, secs: Timer -> int, again: Timer -> bool)
    requires SortedKeys(start)
    ensures var fired := Due(start, now);
      Ticked(start, fired, now, secs, again, Rearmed(start[|fired|..], fired, now, secs, again))
  {
    hide Rearmed, Due, Repeated;
    var fired := Due(start, now);
    NotDue(start, now);
    var rest := start[|fired|..];
    var after := Rearmed(rest, fired, now, secs, again);
    forall x | x in after
      ensures (x in start && x.0 > now) || Repeated(fired, now, secs, again, x)
    {
      RearmedMembers(rest, fired, now, secs, again, x);
    }
    forall x | x in start && x.0 > now
      ensures x in after
    {
      RearmedMembers(rest, fired, now, secs, again, x);
    }
    forall i | 0 <= i < |fired| && again(fired[i].1)
      ensures (now + secs(fired[i].1), fired[i].1) in after
    {
      RepeatedAt(fired, now, secs, again, i);
      RearmedMembers(rest, fired, now, secs, again, (now + secs(fired[i].1), fired[i].1));
    }
  }

  lemma NotDue(s: seq<Entry>, now: int)
    requires SortedKeys(s)
    ensures forall x :: x in s[|Due(s, now)|..] <==> x in s && x.0 > now
  {
    var d := |Due(s, now)|;
    assert s == s[..d] + s[d..];
    assert forall i :: d <= i < |s| ==> s[d].0 <= s[i].0;
  }

  /** A due timer that repeats with an interval of 0 or less. */
  ghost predicate Stuck(e: Entry, now: int, secs: Timer -> int, again: Timer -> bool) {
    e.0 <= now && again(e.1) && secs(e.1) <= 0
  }

  lemma FirstComesFirst(entries: seq<Entry>, e: Entry)
    requires SortedKeys(entries) && e in entries
    ensures entries != [] && entries[0].0 <= e.0
    ensures e == entries[0] || e in EraseAt(entries, 0)
    ensures SortedKeys(EraseAt(entries, 0))
  {
    var i :| 0 <= i < |entries| && entries[i] == e;
    assert forall k :: 0 <= k < |EraseAt(entries, 0)| ==> EraseAt(entries, 0)[k] == entries[k + 1];
    assert i > 0 ==> EraseAt(entries, 0)[i - 1] == e;
  }

  /** With such a timer the loop of TickTimers has a timer to fire, and has such a timer again after firing it. */
  lemma NeverDone(entries: seq<Entry>, e: Entry, now: int, secs: Timer -> int, again: Timer -> bool) returns (f: Entry)
    requires SortedKeys(entries) && e in entries && Stuck(e, now, secs, again)
    ensures entries != [] && entries[0].0 <= now
    ensures var t := entries[0].1; var left := AfterTick(entries, now, secs(t), again(t));
      SortedKeys(left) && f in left && Stuck(f, now, secs, again)
  {
    hide SortedKeys, Emplace, EraseAt;
    FirstComesFirst(entries, e);
    var t, rest := entries[0].1, EraseAt(entries, 0);
    var next := (now + secs(t), t);
    EmplaceHas(rest, next);
    EmplaceKeepsOrder(rest, next);
    f := if e == entries[0] then next else e;
  }

  /** The timers after n rounds of the loop, or as many as there are. */
  ghost function AfterTicks(entries: seq<Entry>, now: int, secs: Timer -> int, again: Timer -> bool, n: nat): seq<Entry>
    decreases n
  {
    if n == 0 || entries == [] then entries
    else AfterTicks(AfterTick(entries, now, secs(entries[0].1), again(entries[0].1)), now, secs, again, n - 1)
  }

  /** However often the loop has gone round, it goes round again. */
  lemma {:induction false} TicksForEver(entries: seq<Entry>, e: Entry, now: int, secs: Timer -> int, again: Timer -> bool, n: nat)
    requires SortedKeys(entries) && e in entries && Stuck(e, now, secs, again)
    ensures var left := AfterTicks(entries, now, secs, again, n); left != [] && left[0].0 <= now
    decreases n
  {
    hide SortedKeys, AfterTick, Stuck;
    var f := NeverDone(entries, e, now, secs, again);
    if n > 0 {
      TicksForEver(AfterTick(entries, now, secs(entries[0].1), again(entries[0].1)), f, now, secs, again, n - 1);
    }
  }

  /** The static Timers multimap. */
  class TimerManager {
    var timers: seq<Entry>

    ghost function Objects(): set<Timer>
      reads this
    {
      set e | e in timers :: e.1
    }

    ghost function Secs(): map<Timer, int>
      reads this, Objects()
    {
      map t | t in Objects() :: t.secs
    }

    /** Every stored key is its timer's trigger, keys are sorted, and no timer is stored twice. */
    ghost predicate Valid()
      reads this, Objects()
    {
      && SortedKeys(timers) && DistinctTimers(timers)
      && forall i :: 0 <= i < |timers| ==> timers[i].0 == timers[i].1.trigger
    }

    constructor ()
      ensures Valid() && timers == []
    {
      timers := [];
    }

    method AddTimer(t: Timer)
      requires Valid() && !Stored(timers, t)
      modifies this
      ensures Valid() && timers == Emplace(old(timers), (t.trigger, t))
    {
      EmplaceKeepsOrder(timers, (t.trigger, t));
      timers := Emplace(timers, (t.trigger, t));
    }

    /** The search runs over the equal range of the timer's trigger only; because every stored key is
        the trigger, that finds the timer wherever it is stored. */
    method DelTimer(t: Timer)
      requires Valid()
      modifies this
      ensures Valid() && !Stored(timers, t)
      ensures !Stored(old(timers), t) ==> timers == old(timers)
      ensures forall i :: 0 <= i < |old(timers)| && old(timers)[i].1 == t ==> timers == EraseAt(old(timers), i)
    {
      var i := LowerBound(timers, t.trigger);
      var end := UpperBound(timers, t.trigger);
      while i < end
        invariant 0 <= i && timers == old(timers)
        invariant forall k :: 0 <= k < i && k < |timers| ==> timers[k].1 != t
      {
        if timers[i].1 == t {
          EraseKeepsOrder(timers, i);
          hide SortedKeys, DistinctTimers;
          timers := EraseAt(timers, i);
          return;
        }
        i := i + 1;
      }
      assert forall k :: end <= k < |timers| ==> timers[k].0 > t.trigger;
    }

    method SetTimer(t: Timer, when: int)
      requires Valid()
      modifies this, t`trigger
      ensures Valid() && t.trigger == when
      ensures !Stored(old(timers), t) ==> timers == Emplace(old(timers), (when, t))
      ensures forall i :: 0 <= i < |old(timers)| && old(timers)[i].1 == t ==>
                timers == Emplace(EraseAt(old(timers), i), (when, t))
    {
      DelTimer(t);
      t.trigger := when;
      AddTimer(t);
    }

    method SetSecs(t: Timer, secs: int, now: int)
      requires Valid()
      modifies this, t
      ensures Valid() && t.trigger == now + secs && t.secs == secs
      ensures !Stored(old(timers), t) ==> timers == Emplace(old(timers), (now + secs, t))
      ensures forall i :: 0 <= i < |old(timers)| && old(timers)[i].1 == t ==>
                timers == Emplace(EraseAt(old(timers), i), (now + secs, t))
    {
      DelTimer(t);
      t.secs := secs;
      t.trigger := now + secs;
      AddTimer(t);
    }

    /** The body of the loop in TickTimers: the first timer fires and is set again or deleted. */
    method FireFirst(now: int, again: Timer -> bool) returns (e: Entry)
      requires Valid() && timers != []
      modifies this, Objects()`trigger
      ensures Valid() && e == old(timers[0]) && Objects() <= old(Objects())
      ensures timers == AfterTick(old(timers), now, e.1.secs, again(e.1))
    {
      hide Emplace, Stored;
      e := timers[0];
      assert e in timers && e.1 in Objects();
      if again(e.1) {
        SetTimer(e.1, now + e.1.secs);
      } else {
        DelTimer(e.1);
      }
      assert old(timers)[0].1 == e.1;
      EmplaceMembers(EraseAt(old(timers), 0), (now + e.1.secs, e.1));
      assert forall x :: x in EraseAt(old(timers), 0) ==> x in old(timers);
    }

    /** The loop of TickTimers, on the map start it was entered with. */
    method FireDue(now: int, again: Timer -> bool, ghost start: seq<Entry>, ghost secs: Timer -> int)
      returns (fired: seq<Entry>)
      requires Valid() && Progress(timers, start, 0, now, secs, again) && Positive(Due(start, now), secs, again)
      requires forall t :: t in Objects() ==> t.secs == secs(t)
      modifies this, Objects()`trigger
      ensures Valid() && fired == Due(start, now)
      ensures timers == Rearmed(start[|fired|..], fired, now, secs, again)
      ensures forall i :: 0 <= i < |timers| ==> timers[i].0 > now
    {
      hide Rearmed, Emplace, Due, Progress, Positive, SortedKeys, DistinctTimers, AfterTick, Stored;
      ghost var n: nat := 0;
      fired := [];
      while timers != [] && timers[0].1.trigger <= now
        invariant Valid() && Objects() <= old(Objects())
        invariant Progress(timers, start, n, now, secs, again) && n <= |Due(start, now)|
        invariant fired == Due(start, now)[..n]
        decreases |Due(start, now)| - n
      {
        assert timers[0] in timers && timers[0].1 in Objects();
        ProgressStep(timers, start, n, now, secs, again);
        var e := FireFirst(now, again);
        fired := fired + [e];
        n := n + 1;
      }
      ProgressEnd(timers, start, n, now, secs, again);
    }

    /** TickTimers with a fixed clock; the answer of each timer's Tick is given by again. The timers
        due at entry fire, once each and in key order (DueExactly), no other fires, and none is due
        afterwards. */
    method TickTimers(now: int, again: Timer -> bool) returns (fired: seq<Entry>)
      requires Valid()
      requires forall i :: 0 <= i < |timers| && timers[i].0 <= now && again(timers[i].1) ==> timers[i].1.secs > 0
      modifies this, Objects()`trigger
      ensures Valid() && fired == Due(old(timers), now)
      ensures timers == Rearmed(old(timers)[|fired|..], fired, now, Intervals(old(Secs())), again)
      ensures Ticked(old(timers), fired, now, Intervals(old(Secs())), again, timers)
      ensures forall i :: 0 <= i < |timers| ==> timers[i].0 > now
    {
      ghost var secs, start := Intervals(Secs()), timers;
      hide Ticked;
      ProgressStart(timers, now, secs, again);
      assert Positive(Due(timers, now), secs, again) by {
        assert forall i :: 0 <= i < |timers| ==> timers[i] in timers && timers[i].1 in Objects();
      }
      hide Rearmed, Emplace, Due, Progress, Positive;
      fired := FireDue(now, again, timers, secs);
      TickedMembers(start, now, secs, again);
    }
  }
}
