/** Pending mode changes and their MODE lines: src/modes.cpp and src/protocol.cpp. */
module Modes {

  datatype Kind = Regular | Param(minusNoArg: bool) | List | Status

  /** A mode object; its address orders the multimap of changes. */
  datatype Mode = Mode(mchar: char, kind: Kind, address: int)

  datatype Change = Change(mode: Mode, add: bool, value: string)

  /** What two changes must share to be about the same thing: the mode, and its value unless there can be but one. */
  type Slot = (Mode, string)

  function SlotOf(mode: Mode, value: string): Slot {
    (mode, if mode.kind.Param? then "" else value)
  }

  function At(c: Change): Slot {
    SlotOf(c.mode, c.value)
  }

  /** No two changes are about the same slot. */
  ghost predicate Apart(cs: seq<Change>) {
    forall i, j :: 0 <= i < j < |cs| ==> At(cs[i]) != At(cs[j])
  }

  type Plan = map<Slot, Change>

  /** The changes by slot. */
  ghost function PlanOf(cs: seq<Change>): (p: Plan)
    ensures forall x :: x in p ==> p[x] in cs && At(p[x]) == x
    ensures forall c :: c in cs ==> At(c) in p
  {
    if cs == [] then map[] else PlanOf(cs[..|cs| - 1])[At(cs[|cs| - 1]) := cs[|cs| - 1]]
  }

  lemma PlanAt(cs: seq<Change>, i: nat)
    requires Apart(cs) && i < |cs|
    ensures At(cs[i]) in PlanOf(cs) && PlanOf(cs)[At(cs[i])] == cs[i]
  {
    var c := PlanOf(cs)[At(cs[i])];
    var k :| 0 <= k < |cs| && cs[k] == c;
  }

  /** A plan is known by its members. */
  lemma PlanIs(cs: seq<Change>, p: Plan)
    requires Apart(cs)
    requires forall c :: c in cs ==> At(c) in p && p[At(c)] == c
    requires forall x :: x in p ==> p[x] in cs && At(p[x]) == x
    ensures PlanOf(cs) == p
  {
  }

  function Unmatched(list: seq<Change>, mode: Mode, value: string): (r: seq<Change>)
    ensures |list| - 1 <= |r| <= |list|
  {
    if list == [] then []
    else if list[0].mode == mode && (mode.kind.Param? || value == list[0].value) then list[1..]
    else [list[0]] + Unmatched(list[1..], mode, value)
  }

  lemma ApartHead(h: Change, t: seq<Change>)
    ensures Apart([h] + t) <==> Apart(t) && forall c :: c in t ==> At(c) != At(h)
  {
    ApartHalves([h], t);
  }

  lemma {:induction false} UnmatchedMembers(list: seq<Change>, mode: Mode, value: string)
    requires Apart(list)
    ensures Apart(Unmatched(list, mode, value))
    ensures forall c :: c in Unmatched(list, mode, value) <==> c in list && At(c) != SlotOf(mode, value)
    ensures |Unmatched(list, mode, value)| == |list| <==> forall c :: c in list ==> At(c) != SlotOf(mode, value)
  {
    if list != [] {
      var rest := list[1..];
      assert list == [list[0]] + rest;
      ApartHead(list[0], rest);
      SameSlot(list[0], mode, value);
      hide Apart, At, SlotOf;
      if At(list[0]) == SlotOf(mode, value) {
        assert Unmatched(list, mode, value) == rest;
        assert list[0] in list;
      } else {
        UnmatchedMembers(rest, mode, value);
        assert Unmatched(list, mode, value) == [list[0]] + Unmatched(rest, mode, value);
        ApartHead(list[0], Unmatched(rest, mode, value));
      }
    }
  }

  lemma SameSlot(c: Change, mode: Mode, value: string)
    ensures c.mode == mode && (mode.kind.Param? || value == c.value) <==> At(c) == SlotOf(mode, value)
  {
  }

  /** StackerInfo: changes to add and changes to remove, each marked as such. */
  class StackerInfo {
    var addModes: seq<Change>
    var delModes: seq<Change>

    ghost predicate Valid()
      reads this
    {
      Signed(addModes, delModes)
    }

    ghost function Pending(): Plan
      reads this
    {
      PlanOf(addModes + delModes)
    }

    constructor ()
      ensures Valid() && Pending() == map[]
    {
      addModes, delModes := [], [];
    }

    /** A change replaces the one pending in its slot, or cancels it if that is the opposite one. */
    method AddMode(mode: Mode, set_: bool, value: string)
      requires Valid()
      modifies this
      ensures Valid()
      ensures Pending() == Stacked(old(Pending()), Change(mode, set_, value))
    {
      hide PlanOf, Unmatched, Signed, Stacked;
      StackStep(addModes, delModes, Change(mode, set_, value));
      if set_ {
        addModes, delModes := AddTo(addModes, delModes, Change(mode, set_, value));
      } else {
        delModes, addModes := AddTo(delModes, addModes, Change(mode, set_, value));
      }
    }

    /** The changes have been sent; the source deletes the object. */
    method Clear()
      modifies this
      ensures Valid() && Pending() == map[]
    {
      addModes, delModes := [], [];
    }
  }

  /** AddMode once its list and the other one are chosen. */
  method AddTo(list: seq<Change>, other: seq<Change>, c: Change) returns (list': seq<Change>, other': seq<Change>)
    ensures other' == Unmatched(other, c.mode, c.value)
    ensures list' == Unmatched(list, c.mode, c.value) + if |other'| < |other| then [] else [c]
  {
    list' := Erase(list, c.mode, c.value);
    other' := Erase(other, c.mode, c.value);
    if |other'| < |other| {
      return;
    }
    list' := list' + [c];
  }

  lemma UnmatchedFrom(list: seq<Change>, i: nat, mode: Mode, value: string)
    requires i < |list|
    ensures Unmatched(list[i..], mode, value) ==
      if list[i].mode == mode && (mode.kind.Param? || value == list[i].value) then list[i + 1..]
      else [list[i]] + Unmatched(list[i + 1..], mode, value)
  {
    assert list[i..][0] == list[i] && list[i..][1..] == list[i + 1..];
  }

  /** The first change that matches is erased. */
  method Erase(list: seq<Change>, mode: Mode, value: string) returns (r: seq<Change>)
    ensures r == Unmatched(list, mode, value)
  {
    hide Unmatched;
    var i := 0;
    assert list[0..] == list;
    while i < |list|
      invariant 0 <= i <= |list|
      invariant Unmatched(list, mode, value) == list[..i] + Unmatched(list[i..], mode, value)
    {
      UnmatchedFrom(list, i, mode, value);
      if list[i].mode == mode && (mode.kind.Param? || value == list[i].value) {
        return list[..i] + list[i + 1..];
      }
      assert list[..i + 1] == list[..i] + [list[i]];
      assert list[..i] + ([list[i]] + Unmatched(list[i + 1..], mode, value)) == list[..i + 1] + Unmatched(list[i + 1..], mode, value);
      i := i + 1;
    }
    assert list[|list|..] == [];
    assert Unmatched([], mode, value) == [] by {
      UnmatchedOfNone(mode, value);
    }
    r := list;
  }

  lemma UnmatchedOfNone(mode: Mode, value: string)
    ensures Unmatched([], mode, value) == []
  {
  }

  ghost predicate Signed(adds: seq<Change>, dels: seq<Change>) {
    Apart(adds + dels) && (forall c :: c in adds ==> c.add) && (forall c :: c in dels ==> !c.add)
  }

  /** The two lists after AddMode. */
  function Lists(adds: seq<Change>, dels: seq<Change>, c: Change): (seq<Change>, seq<Change>) {
    var a, d := Unmatched(adds, c.mode, c.value), Unmatched(dels, c.mode, c.value);
    if c.add then (a + if |d| < |dels| then [] else [c], d)
    else (a, d + if |a| < |adds| then [] else [c])
  }

  lemma StackStep(adds: seq<Change>, dels: seq<Change>, c: Change)
    requires Signed(adds, dels)
    ensures var (a, d) := Lists(adds, dels, c);
      Signed(a, d) && PlanOf(a + d) == Stacked(PlanOf(adds + dels), c)
  {
    var (a, d) := Lists(adds, dels, c);
    StackSigned(adds, dels, c);
    hide Lists, Apart, Stacked, PlanOf;
    StackedIs(adds + dels, a + d, c);
  }

  lemma PlanMembers(cs: seq<Change>)
    requires Apart(cs)
    ensures forall e :: e in cs ==> At(e) in PlanOf(cs) && PlanOf(cs)[At(e)] == e
  {
    forall e | e in cs
      ensures At(e) in PlanOf(cs) && PlanOf(cs)[At(e)] == e
    {
      var i :| 0 <= i < |cs| && cs[i] == e;
      PlanAt(cs, i);
    }
  }

  lemma StackedIs(before: seq<Change>, after: seq<Change>, c: Change)
    requires Apart(before) && Apart(after)
    requires forall e :: e in after <==>
      (e in before && At(e) != At(c)) || (e == c && forall o :: o in before && At(o) == At(c) ==> o.add == c.add)
    ensures PlanOf(after) == Stacked(PlanOf(before), c)
  {
    hide Apart, At;
    PlanMembers(before);
    var p := PlanOf(before);
    assert At(c) in p ==> p[At(c)] in before && At(p[At(c)]) == At(c);
    assert forall o :: o in before && At(o) == At(c) ==> o == p[At(c)];
    hide PlanOf;
    PlanIs(after, Stacked(p, c));
  }

  lemma StackSigned(adds: seq<Change>, dels: seq<Change>, c: Change)
    requires Signed(adds, dels)
    ensures var (a, d) := Lists(adds, dels, c);
      && Signed(a, d)
      && forall e :: e in a + d <==>
           (e in adds + dels && At(e) != At(c)) || (e == c && forall o :: o in adds + dels && At(o) == At(c) ==> o.add == c.add)
  {
    ApartHalves(adds, dels);
    var (a, d) := Lists(adds, dels, c);
    if c.add {
      OneList(adds, dels, c, a, d);
    } else {
      OneList(dels, adds, c, d, a);
    }
    hide Unmatched, Apart, At;
    ApartHalves(a, d);
  }

  /** What becomes of the list that the change goes to and of the other one. */
  lemma OneList(list: seq<Change>, other: seq<Change>, c: Change, list': seq<Change>, other': seq<Change>)
    requires Apart(list) && Apart(other) && forall o, e :: o in list && e in other ==> At(o) != At(e)
    requires (forall e :: e in list ==> e.add == c.add) && (forall e :: e in other ==> e.add != c.add)
    requires other' == Unmatched(other, c.mode, c.value)
    requires list' == Unmatched(list, c.mode, c.value) + if |other'| < |other| then [] else [c]
    ensures Apart(list') && Apart(other')
    ensures forall e :: e in other' <==> e in other && At(e) != At(c)
    ensures forall e :: e in list' <==> (e in list && At(e) != At(c)) || (e == c && forall o :: o in other ==> At(o) != At(c))
  {
    UnmatchedMembers(list, c.mode, c.value);
    UnmatchedMembers(other, c.mode, c.value);
    assert At(c) == SlotOf(c.mode, c.value);
    hide Unmatched, Apart, At, SlotOf;
    var kept := Unmatched(list, c.mode, c.value);
    ApartAppend(kept, c);
    if |other'| < |other| {
      assert kept + [] == kept;
    }
  }

  lemma ApartAppend(cs: seq<Change>, c: Change)
    requires Apart(cs) && forall e :: e in cs ==> At(e) != At(c)
    ensures Apart(cs + [c])
  {
  }

  lemma ApartHalves(a: seq<Change>, b: seq<Change>)
    ensures Apart(a + b) <==> Apart(a) && Apart(b) && forall c, e :: c in a && e in b ==> At(c) != At(e)
  {
    var s := a + b;
    if Apart(s) {
      forall i, j | 0 <= i < j < |a|
        ensures At(a[i]) != At(a[j])
      {
        assert s[i] == a[i] && s[j] == a[j];
      }
      forall i, j | 0 <= i < j < |b|
        ensures At(b[i]) != At(b[j])
      {
        assert s[|a| + i] == b[i] && s[|a| + j] == b[j];
      }
      forall c, e | c in a && e in b
        ensures At(c) != At(e)
      {
        var i :| 0 <= i < |a| && a[i] == c;
        var j :| 0 <= j < |b| && b[j] == e;
        assert s[i] == c && s[|a| + j] == e;
      }
    }
  }

  function Stacked(p: Plan, c: Change): Plan {
    if At(c) in p && p[At(c)].add != c.add then p - {At(c)} else p[At(c) := c]
  }

  // ---------- BuildModeMap ----------

  ghost predicate Ordered(cs: seq<Change>) {
    forall i, j :: 0 <= i < j < |cs| ==> cs[i].mode.address <= cs[j].mode.address
  }

  /** What the order of the multimap promises of one mode: all its additions come first. */
  ghost predicate AddsFirst(cs: seq<Change>) {
    forall i, j :: 0 <= i < j < |cs| && cs[i].mode == cs[j].mode && cs[j].add ==> cs[i].add
  }

  function UpperBound(cs: seq<Change>, address: int): (k: nat)
    ensures k <= |cs|
    ensures forall i :: 0 <= i < k ==> cs[i].mode.address <= address
    ensures k < |cs| ==> cs[k].mode.address > address
  {
    if cs == [] || cs[0].mode.address > address then 0 else 1 + UpperBound(cs[1..], address)
  }

  /** multimap::emplace. */
  function Emplace(cs: seq<Change>, c: Change): seq<Change> {
    var k := UpperBound(cs, c.mode.address);
    cs[..k] + [c] + cs[k..]
  }

  /** A multimap of these changes. */
  ghost predicate Maps(change: seq<Change>, cs: seq<Change>) {
    && Ordered(change) && AddsFirst(change) && Apart(change)
    && forall e :: e in change <==> e in cs
  }

  ghost predicate Inserted(cs: seq<Change>, c: Change, k: nat, r: seq<Change>) {
    && k <= |cs| && |r| == |cs| + 1
    && (forall i :: 0 <= i < k ==> r[i] == cs[i])
    && r[k] == c
    && (forall i :: k < i < |r| ==> r[i] == cs[i - 1])
  }

  lemma InsertedMembers(cs: seq<Change>, c: Change, k: nat, r: seq<Change>)
    requires Inserted(cs, c, k, r)
    ensures forall e :: e in r <==> e in cs || e == c
  {
    forall e | e in cs
      ensures e in r
    {
      var i :| 0 <= i < |cs| && cs[i] == e;
      assert if i < k then r[i] == e else r[i + 1] == e;
    }
  }

  lemma InsertedApart(cs: seq<Change>, c: Change, k: nat, r: seq<Change>)
    requires Inserted(cs, c, k, r) && Apart(cs) && forall e :: e in cs ==> At(e) != At(c)
    ensures Apart(r)
  {
  }

  lemma InsertedOrdered(cs: seq<Change>, c: Change, k: nat, r: seq<Change>)
    requires Inserted(cs, c, k, r) && Ordered(cs) && k == UpperBound(cs, c.mode.address)
    ensures Ordered(r)
  {
    assert forall i :: k <= i < |cs| ==> cs[k].mode.address <= cs[i].mode.address;
  }

  lemma InsertedAddsFirst(cs: seq<Change>, c: Change, k: nat, r: seq<Change>)
    requires Inserted(cs, c, k, r) && Ordered(cs) && AddsFirst(cs) && k == UpperBound(cs, c.mode.address)
    requires c.add ==> forall e :: e in cs ==> e.add
    ensures AddsFirst(r)
  {
    assert forall i :: k <= i < |cs| ==> cs[k].mode.address <= cs[i].mode.address;
  }

  lemma EmplaceKeeps(change: seq<Change>, cs: seq<Change>, c: Change)
    requires Maps(change, cs) && forall e :: e in cs ==> At(e) != At(c)
    requires c.add ==> forall e :: e in cs ==> e.add
    ensures Maps(Emplace(change, c), cs + [c])
  {
    var k, r := UpperBound(change, c.mode.address), Emplace(change, c);
    assert Inserted(change, c, k, r);
    hide Emplace, UpperBound, Ordered, AddsFirst, Apart, Inserted;
    InsertedMembers(change, c, k, r);
    InsertedApart(change, c, k, r);
    InsertedOrdered(change, c, k, r);
    InsertedAddsFirst(change, c, k, r);
  }

  method EmplaceAll(change: seq<Change>, list: seq<Change>, ghost cs: seq<Change>) returns (r: seq<Change>)
    requires Maps(change, cs) && Apart(cs + list)
    requires forall c :: c in list && c.add ==> forall e :: e in cs + list ==> e.add
    ensures Maps(r, cs + list)
  {
    hide Maps, Emplace;
    r := change;
    assert cs + list[..0] == cs;
    for i := 0 to |list|
      invariant Maps(r, cs + list[..i])
    {
      assert cs + list[..i + 1] == (cs + list[..i]) + [list[i]];
      EarlierApart(cs, list, i);
      assert forall e :: e in cs + list[..i] ==> e in cs + list;
      EmplaceKeeps(r, cs + list[..i], list[i]);
      r := Emplace(r, list[i]);
    }
    assert list[..|list|] == list;
  }

  lemma EarlierApart(cs: seq<Change>, list: seq<Change>, i: nat)
    requires Apart(cs + list) && i < |list|
    ensures forall e :: e in cs + list[..i] ==> At(e) != At(list[i])
  {
    var s, n := cs + list, |cs| + i;
    assert s[n] == list[i];
    forall e | e in cs + list[..i]
      ensures At(e) != At(list[i])
    {
      var k :| 0 <= k < |cs + list[..i]| && (cs + list[..i])[k] == e;
      assert s[k] == e;
    }
  }

  /** The changes in the order in which they are sent. */
  method BuildModeMap(info: StackerInfo) returns (change: seq<Change>)
    requires info.Valid()
    ensures Ordered(change) && AddsFirst(change) && Apart(change)
    ensures PlanOf(change) == info.Pending()
  {
    hide Emplace, PlanOf;
    ghost var all := info.addModes + info.delModes;
    assert [] + info.addModes == info.addModes;
    ApartHalves(info.addModes, info.delModes);
    hide Apart;
    change := EmplaceAll([], info.addModes, []);
    change := EmplaceAll(change, info.delModes, info.addModes);
    forall e | e in all
      ensures At(e) in PlanOf(all) && PlanOf(all)[At(e)] == e
    {
      var i :| 0 <= i < |all| && all[i] == e;
      PlanAt(all, i);
    }
    PlanIs(change, PlanOf(all));
  }
}
