/** What services believe of a channel against what the server holds: the mode pipeline from end to end. */
module ChannelSync {
  import opened Wrappers
  import opened Modes
  import opened ModeLines
  import opened ChannelStates

  // ---------- what the pending changes lead to ----------

  /** The pending additions, or removals, at a place. */
  ghost function PendingAt(sc: Scope, plan: Plan, x: Slot, add: bool): set<Slot> {
    set y | y in plan && plan[y].add == add && Place(sc, plan[y]) == x && !Nowhere(x)
  }

  ghost function AddedValue(sc: Scope, plan: Plan, x: Slot): string
    requires PendingAt(sc, plan, x, true) != {}
  {
    var y :| y in PendingAt(sc, plan, x, true);
    Worth(sc, plan[y])
  }

  ghost function Places(sc: Scope, plan: Plan): set<Slot> {
    set y | y in plan :: Place(sc, plan[y])
  }

  ghost predicate Survives(sc: Scope, server: Board, plan: Plan, x: Slot) {
    PendingAt(sc, plan, x, false) == {} && (x in server || PendingAt(sc, plan, x, true) != {})
  }

  ghost function ValueAt(sc: Scope, server: Board, plan: Plan, x: Slot): string
    requires Survives(sc, server, plan, x)
  {
    if x in server && (Many(x.0.kind) || PendingAt(sc, plan, x, true) == {}) then server[x] else AddedValue(sc, plan, x)
  }

  /** The board once the pending changes are made: (server + additions) - removals. */
  ghost function Overlay(sc: Scope, server: Board, plan: Plan): Board {
    map x: Slot | x in server.Keys + Places(sc, plan) && Survives(sc, server, plan, x) :: ValueAt(sc, server, plan, x)
  }

  /** The entries stand in their slots, and at most one addition and one removal wait at a place. */
  ghost predicate Single(sc: Scope, plan: Plan) {
    && (forall y :: y in plan ==> At(plan[y]) == y)
    && (forall y, z :: (y in plan && z in plan && plan[y].add == plan[z].add && Place(sc, plan[y]) == Place(sc, plan[z])
         && !Nowhere(Place(sc, plan[y]))) ==> y == z)
  }

  /** Of two changes about one place the first is the addition. */
  ghost predicate Settled(sc: Scope, cs: seq<Change>) {
    forall i, j :: 0 <= i < j < |cs| && Place(sc, cs[i]) == Place(sc, cs[j]) && !Nowhere(Place(sc, cs[i])) ==> cs[i].add && !cs[j].add
  }

  lemma SentIsSettled(sc: Scope, cs: seq<Change>)
    requires Apart(cs) && AddsFirst(cs) && Single(sc, PlanOf(cs))
    ensures Settled(sc, cs)
  {
    forall i, j | 0 <= i < j < |cs| && Place(sc, cs[i]) == Place(sc, cs[j]) && !Nowhere(Place(sc, cs[i]))
      ensures cs[i].add && !cs[j].add
    {
      PlanAt(cs, i);
      PlanAt(cs, j);
      assert At(cs[i]) != At(cs[j]);
      assert cs[i].mode == cs[j].mode;
    }
  }

  ghost predicate Has(sc: Scope, cs: seq<Change>, x: Slot, add: bool) {
    exists i :: 0 <= i < |cs| && cs[i].add == add && Place(sc, cs[i]) == x && !Nowhere(x)
  }

  lemma HasHead(sc: Scope, cs: seq<Change>, x: Slot, add: bool)
    requires cs != []
    ensures Has(sc, cs, x, add) <==> (cs[0].add == add && Place(sc, cs[0]) == x && !Nowhere(x)) || Has(sc, cs[1..], x, add)
  {
    if Has(sc, cs[1..], x, add) {
      var i :| 0 <= i < |cs[1..]| && cs[1..][i].add == add && Place(sc, cs[1..][i]) == x;
      assert cs[i + 1] == cs[1..][i];
    }
    if Has(sc, cs, x, add) {
      var i :| 0 <= i < |cs| && cs[i].add == add && Place(sc, cs[i]) == x;
      assert i > 0 ==> cs[1..][i - 1] == cs[i];
    }
  }

  lemma SettledHead(sc: Scope, cs: seq<Change>)
    requires Settled(sc, cs) && cs != []
    ensures Settled(sc, cs[1..])
    ensures !Has(sc, cs[1..], Place(sc, cs[0]), true)
    ensures !cs[0].add ==> !Has(sc, cs[1..], Place(sc, cs[0]), false)
  {
    assert forall i :: 0 <= i < |cs[1..]| ==> cs[1..][i] == cs[i + 1];
  }

  /** What settled changes leave at a place. */
  lemma {:induction false} AppliedAllAt(sc: Scope, b: Board, cs: seq<Change>, x: Slot)
    requires Settled(sc, cs)
    ensures var r := AppliedAll(sc, b, cs);
      && (x in r <==> !Has(sc, cs, x, false) && (x in b || Has(sc, cs, x, true)))
      && (x in r && x in b && (Many(x.0.kind) || !Has(sc, cs, x, true)) ==> r[x] == b[x])
      && (x in r && !(x in b && Many(x.0.kind)) ==>
           forall i :: 0 <= i < |cs| && cs[i].add && Place(sc, cs[i]) == x && !Nowhere(x) ==> r[x] == Worth(sc, cs[i]))
    decreases |cs|
  {
    if cs != [] {
      var c, rest := cs[0], cs[1..];
      HasHead(sc, cs, x, true);
      HasHead(sc, cs, x, false);
      SettledHead(sc, cs);
      AppliedAllAt(sc, Applied(sc, b, c), rest, x);
      assert forall i :: 0 < i < |cs| ==> cs[i] == rest[i - 1];
      assert Place(sc, c) == x && c.add && !Nowhere(x) ==> forall i :: 0 < i < |cs| && cs[i].add ==> Place(sc, cs[i]) != x;
      hide Settled, Place, Worth;
    }
  }

  /** Sent in the order of the multimap, the changes have the effect of their plan. */
  lemma AppliedAllIsOverlay(sc: Scope, b: Board, cs: seq<Change>)
    requires Apart(cs) && AddsFirst(cs) && Single(sc, PlanOf(cs))
    ensures AppliedAll(sc, b, cs) == Overlay(sc, b, PlanOf(cs))
  {
    SentIsSettled(sc, cs);
    var r, o := AppliedAll(sc, b, cs), Overlay(sc, b, PlanOf(cs));
    hide AppliedAll, Overlay, PlanOf, Settled, Apart, AddsFirst, Single;
    forall x
      ensures Look(r, x) == Look(o, x)
    {
      OverlayIsApplied(sc, b, cs, x);
    }
    SameBoard(r, o);
  }

  lemma OverlayIsApplied(sc: Scope, b: Board, cs: seq<Change>, x: Slot)
    requires Apart(cs) && Settled(sc, cs)
    ensures var r, o := AppliedAll(sc, b, cs), Overlay(sc, b, PlanOf(cs));
      (x in r <==> x in o) && (x in r ==> r[x] == o[x])
  {
    hide AppliedAll, Settled, Apart, Place, Has, PlanOf, PendingAt, Overlay, AddedValue;
    AppliedAllAt(sc, b, cs, x);
    PendingIsHas(sc, cs, x, true);
    PendingIsHas(sc, cs, x, false);
    OverlayAt(sc, b, PlanOf(cs), x);
  }

  lemma PendingIsHas(sc: Scope, cs: seq<Change>, x: Slot, add: bool)
    requires Apart(cs)
    ensures PendingAt(sc, PlanOf(cs), x, add) != {} <==> Has(sc, cs, x, add)
    ensures forall y :: y in PendingAt(sc, PlanOf(cs), x, add) ==>
      exists i :: 0 <= i < |cs| && cs[i].add == add && Place(sc, cs[i]) == x && !Nowhere(x) && cs[i] == PlanOf(cs)[y]
  {
    forall i | 0 <= i < |cs| && cs[i].add == add && Place(sc, cs[i]) == x && !Nowhere(x)
      ensures At(cs[i]) in PendingAt(sc, PlanOf(cs), x, add)
    {
      PlanAt(cs, i);
    }
  }

  lemma OverlayAt(sc: Scope, b: Board, plan: Plan, x: Slot)
    ensures x in Overlay(sc, b, plan) <==> Survives(sc, b, plan, x)
    ensures x in Overlay(sc, b, plan) ==> Overlay(sc, b, plan)[x] == ValueAt(sc, b, plan, x)
    ensures PendingAt(sc, plan, x, true) != {} ==> exists y :: y in PendingAt(sc, plan, x, true) && AddedValue(sc, plan, x) == Worth(sc, plan[y])
  {
    if PendingAt(sc, plan, x, true) != {} {
      var y :| y in PendingAt(sc, plan, x, true);
      assert x in Places(sc, plan);
    }
  }

  lemma AddedIs(sc: Scope, plan: Plan, x: Slot, y: Slot)
    requires y in PendingAt(sc, plan, x, true) && forall z :: z in PendingAt(sc, plan, x, true) ==> z == y
    ensures AddedValue(sc, plan, x) == Worth(sc, plan[y])
  {
  }

  // ---------- staying in sync ----------

  /** Services believe of the channel what the server will hold when the pending changes have reached it. */
  ghost predicate InSync(sc: Scope, server: Board, d: Desk) {
    BoardOf(d.state) == Overlay(sc, server, d.plan)
  }

  /** Of all modes but parameter modes, additions wait only for what the server lacks, and removals only for what it
      has or what is being added in another spelling or name. */
  ghost predicate Needed(sc: Scope, server: Board, plan: Plan) {
    && (forall y :: y in plan && !y.0.kind.Param? && !Nowhere(Place(sc, plan[y])) && plan[y].add ==> Place(sc, plan[y]) !in server)
    && (forall y :: y in plan && !y.0.kind.Param? && !Nowhere(Place(sc, plan[y])) && !plan[y].add ==>
         Place(sc, plan[y]) in server || PendingAt(sc, plan, Place(sc, plan[y]), true) != {})
  }

  ghost predicate Kept(sc: Scope, server: Board, plan: Plan) {
    && Single(sc, plan)
    && Needed(sc, server, plan)
    && (forall y :: y in plan && y.0.kind.Regular? ==> plan[y].value == "")
  }

  /** The value that stands for a mode without a parameter of its own. */
  ghost predicate Plain(server: Board) {
    && (forall x :: x in server && x.0.kind.Regular? ==> server[x] == "")
    && (forall x :: x in server && x.0.kind.Status? ==> server[x] == x.1)
  }

  /** The pending changes of a place after one more change. */
  lemma StackedAt(sc: Scope, plan: Plan, c: Change, x: Slot, add: bool)
    requires forall y :: y in plan ==> At(plan[y]) == y
    ensures var y, now := At(c), PendingAt(sc, Stacked(plan, c), x, add);
      now == if x != Place(sc, c) || Nowhere(x) then PendingAt(sc, plan, x, add)
             else if y in plan && plan[y].add != c.add then PendingAt(sc, plan, x, add) - (if add == c.add then {} else {y})
             else PendingAt(sc, plan, x, add) + (if add == c.add then {y} else {})
    ensures At(c) in plan ==> Place(sc, plan[At(c)]) == Place(sc, c)
  {
    var y, p := At(c), Stacked(plan, c);
    if y in plan {
      assert At(plan[y]) == y;
      assert Place(sc, plan[y]) == Place(sc, c);
    }
    hide Place, At, Nowhere;
    assert forall z :: z != y ==> (z in p <==> z in plan) && (z in p ==> p[z] == plan[z]);
    assert y in p <==> !(y in plan && plan[y].add != c.add);
    assert y in p ==> p[y] == c;
    hide Stacked;
  }

  // ---------- one place at a time ----------

  function Look(b: Board, x: Slot): Option<string> {
    if x in b then Some(b[x]) else None
  }

  ghost function AddAt(sc: Scope, plan: Plan, x: Slot): Option<string> {
    if PendingAt(sc, plan, x, true) == {} then None else Some(AddedValue(sc, plan, x))
  }

  ghost predicate DelAt(sc: Scope, plan: Plan, x: Slot) {
    PendingAt(sc, plan, x, false) != {}
  }

  /** What a place holds after an addition and a removal that may wait for it. */
  function Cell(many: bool, held: Option<string>, added: Option<string>, removed: bool): Option<string> {
    if removed then None else if added.None? || (many && held.Some?) then held else added
  }

  lemma OverlayCell(sc: Scope, server: Board, plan: Plan, x: Slot)
    ensures Look(Overlay(sc, server, plan), x) == Cell(Many(x.0.kind), Look(server, x), AddAt(sc, plan, x), DelAt(sc, plan, x))
  {
    OverlayAt(sc, server, plan, x);
    hide Overlay, PendingAt, AddedValue;
  }

  lemma AppliedCell(sc: Scope, b: Board, c: Change, x: Slot)
    ensures Look(Applied(sc, b, c), x) ==
      if x != Place(sc, c) || Nowhere(x) then Look(b, x)
      else if !c.add then None
      else if Many(c.mode.kind) && x in b then Look(b, x)
      else Some(Worth(sc, c))
  {
  }

  lemma SameBoard(a: Board, b: Board)
    requires forall x :: Look(a, x) == Look(b, x)
    ensures a == b
  {
    forall x
      ensures (x in a <==> x in b) && (x in a ==> a[x] == b[x])
    {
      assert Look(a, x) == Look(b, x);
    }
  }

  lemma SamePending(sc: Scope, plan: Plan, plan': Plan, x: Slot)
    requires Single(sc, plan) && PendingAt(sc, plan, x, true) == PendingAt(sc, plan', x, true)
    requires forall y :: y in PendingAt(sc, plan, x, true) ==> y in plan' && plan[y] == plan'[y]
    ensures AddAt(sc, plan, x) == AddAt(sc, plan', x)
  {
    if PendingAt(sc, plan, x, true) != {} {
      var y :| y in PendingAt(sc, plan, x, true);
      assert forall z :: z in PendingAt(sc, plan, x, true) ==> z == y;
      AddedIs(sc, plan, x, y);
      AddedIs(sc, plan', x, y);
    }
  }

  lemma StackedElsewhere(sc: Scope, plan: Plan, c: Change, x: Slot)
    requires Single(sc, plan) && (x != Place(sc, c) || Nowhere(x))
    ensures AddAt(sc, Stacked(plan, c), x) == AddAt(sc, plan, x) && (DelAt(sc, Stacked(plan, c), x) <==> DelAt(sc, plan, x))
  {
    StackedAt(sc, plan, c, x, true);
    StackedAt(sc, plan, c, x, false);
    forall y | y in PendingAt(sc, plan, x, true)
      ensures y in Stacked(plan, c) && plan[y] == Stacked(plan, c)[y]
    {
      assert y != At(c);
    }
    hide Single;
    SamePending(sc, plan, Stacked(plan, c), x);
  }

  ghost predicate Opposed(plan: Plan, c: Change) {
    At(c) in plan && plan[At(c)].add != c.add
  }

  lemma StackedHere(sc: Scope, plan: Plan, c: Change)
    requires Single(sc, plan) && !Nowhere(Place(sc, c))
    ensures var x, p := Place(sc, c), Stacked(plan, c);
      if Opposed(plan, c) then
        if c.add then AddAt(sc, p, x) == AddAt(sc, plan, x) && !DelAt(sc, p, x) && DelAt(sc, plan, x)
        else AddAt(sc, p, x) == None && (DelAt(sc, p, x) <==> DelAt(sc, plan, x)) && AddAt(sc, plan, x) != None
      else if c.add then
        && (DelAt(sc, p, x) <==> DelAt(sc, plan, x))
        && ((AddAt(sc, plan, x) == None || At(c) in plan) ==> AddAt(sc, p, x) == Some(Worth(sc, c)))
      else
        AddAt(sc, p, x) == AddAt(sc, plan, x) && DelAt(sc, p, x)
  {
    var x, y, p := Place(sc, c), At(c), Stacked(plan, c);
    StackedAt(sc, plan, c, x, true);
    StackedAt(sc, plan, c, x, false);
    if y in plan {
      assert y in PendingAt(sc, plan, x, plan[y].add);
      assert forall z :: z in PendingAt(sc, plan, x, plan[y].add) ==> z == y;
    }
    if c.add && !Opposed(plan, c) {
      if AddAt(sc, plan, x) == None || y in plan {
        AddedIs(sc, p, x, y);
      }
    } else if !c.add && Opposed(plan, c) {
      AddedIs(sc, plan, x, y);
    } else {
      assert forall z :: z in PendingAt(sc, plan, x, true) ==> z in p && p[z] == plan[z];
      SamePending(sc, plan, p, x);
    }
  }

  // ---------- one change ----------

  /** A change cancels an opposite one that was not made on what the server holds, or is added under a removal that
      matches it and is sent after it: the server does not end where services believe. */
  ghost predicate Loses(sc: Scope, server: Board, plan: Plan, c: Change) {
    var x := Place(sc, c);
    !Nowhere(x) &&
    if c.add then
      DelAt(sc, plan, x) &&
      !(Opposed(plan, c) && Cell(Many(c.mode.kind), Look(server, x), AddAt(sc, plan, x), false) == Some(Worth(sc, c)))
    else
      Opposed(plan, c) && x in server
  }

  /** What the guards of SetMode and RemoveMode leave of changes: nothing is added that is there, nor removed that is not. */
  ghost predicate Guarded(sc: Scope, local: Board, c: Change) {
    && (c.mode.kind.Regular? ==> c.value == "")
    && if c.add then c.mode.kind.Param? || Place(sc, c) !in local else Place(sc, c) in local
  }

  /** Of a regular or parameter mode only one slot belongs to a place. */
  lemma OneSlot(sc: Scope, server: Board, plan: Plan, c: Change, add: bool)
    requires Kept(sc, server, plan) && !Many(c.mode.kind) && (c.mode.kind.Regular? ==> c.value == "")
    ensures PendingAt(sc, plan, Place(sc, c), add) <= {At(c)}
  {
    forall y | y in PendingAt(sc, plan, Place(sc, c), add)
      ensures y == At(c)
    {
      assert At(plan[y]) == y && plan[y].mode == c.mode;
    }
  }

  /** Of a list mode the value added tells the slot. */
  lemma AddedSlot(sc: Scope, plan: Plan, c: Change)
    requires Single(sc, plan) && c.mode.kind.List? && AddAt(sc, plan, Place(sc, c)) == Some(c.value)
    ensures At(c) in plan && plan[At(c)].add
  {
    var y :| y in PendingAt(sc, plan, Place(sc, c), true);
    AddedIs(sc, plan, Place(sc, c), y);
    assert At(plan[y]) == y;
  }

  /** What the invariant says of the place of a change. */
  lemma KeptCell(sc: Scope, server: Board, plan: Plan, c: Change)
    requires Kept(sc, server, plan) && (c.mode.kind.Regular? ==> c.value == "") && !Nowhere(Place(sc, c))
    ensures var x, a, d := Place(sc, c), AddAt(sc, plan, Place(sc, c)), DelAt(sc, plan, Place(sc, c));
      && (!c.mode.kind.Param? && a.Some? ==> x !in server)
      && (!c.mode.kind.Param? && d ==> x in server || a.Some?)
      && (!Many(c.mode.kind) ==> !(a.Some? && d))
      && (!Many(c.mode.kind) && (a.Some? || d) ==> At(c) in plan)
      && (At(c) in plan ==> if plan[At(c)].add then a.Some? else d)
  {
    var x := Place(sc, c);
    if At(c) in plan {
      StackedAt(sc, plan, c, x, true);
      assert At(c) in PendingAt(sc, plan, x, plan[At(c)].add);
    }
    if !Many(c.mode.kind) {
      OneSlot(sc, server, plan, c, true);
      OneSlot(sc, server, plan, c, false);
    }
  }

  /** One guarded change keeps the two sides in sync if and only if it does not lose. */
  lemma StepExact(sc: Scope, server: Board, local: Board, plan: Plan, c: Change)
    requires local == Overlay(sc, server, plan) && Kept(sc, server, plan) && Guarded(sc, local, c)
    ensures Applied(sc, local, c) == Overlay(sc, server, Stacked(plan, c)) <==> !Loses(sc, server, plan, c)
  {
    var l, r, p, x := Applied(sc, local, c), Overlay(sc, server, Stacked(plan, c)), Stacked(plan, c), Place(sc, c);
    forall z | z != x || Nowhere(x)
      ensures Look(l, z) == Look(r, z)
    {
      AppliedCell(sc, local, c, z);
      OverlayCell(sc, server, plan, z);
      OverlayCell(sc, server, p, z);
      StackedElsewhere(sc, plan, c, z);
    }
    if !Nowhere(x) {
      AppliedCell(sc, local, c, x);
      OverlayCell(sc, server, plan, x);
      OverlayCell(sc, server, p, x);
      StackedHere(sc, plan, c);
      KeptCell(sc, server, plan, c);
    }
    hide Overlay, Applied, Stacked, Kept, AddAt, At, Place, Worth;
    assert Look(l, x) == Look(r, x) <==> !Loses(sc, server, plan, c);
    if !Loses(sc, server, plan, c) {
      SameBoard(l, r);
    }
  }

  ghost predicate Alone(sc: Scope, plan: Plan, x: Slot) {
    forall add, y, z :: y in PendingAt(sc, plan, x, add) && z in PendingAt(sc, plan, x, add) ==> y == z
  }

  lemma SingleByPlace(sc: Scope, plan: Plan)
    ensures Single(sc, plan) <==> (forall y :: y in plan ==> At(plan[y]) == y) && forall x :: Alone(sc, plan, x)
  {
    if (forall y :: y in plan ==> At(plan[y]) == y) && forall x :: Alone(sc, plan, x) {
      forall y, z | y in plan && z in plan && plan[y].add == plan[z].add && Place(sc, plan[y]) == Place(sc, plan[z])
        && !Nowhere(Place(sc, plan[y]))
        ensures y == z
      {
        var x := Place(sc, plan[y]);
        assert y in PendingAt(sc, plan, x, plan[y].add) && z in PendingAt(sc, plan, x, plan[y].add);
        assert Alone(sc, plan, x);
      }
    }
  }

  /** A change that does not lose keeps the invariant of the pending changes. */
  lemma StepKeeps(sc: Scope, server: Board, local: Board, plan: Plan, c: Change)
    requires local == Overlay(sc, server, plan) && Kept(sc, server, plan) && Guarded(sc, local, c)
    requires !Loses(sc, server, plan, c)
    ensures Kept(sc, server, Stacked(plan, c))
  {
    var p, x := Stacked(plan, c), Place(sc, c);
    if !Nowhere(x) {
      OverlayCell(sc, server, plan, x);
      StackedHere(sc, plan, c);
      KeptCell(sc, server, plan, c);
    }
    StepStaysSingle(sc, server, local, plan, c);
    forall y | y in p && !y.0.kind.Param? && !Nowhere(Place(sc, p[y]))
      ensures p[y].add ==> Place(sc, p[y]) !in server
      ensures !p[y].add ==> Place(sc, p[y]) in server || PendingAt(sc, p, Place(sc, p[y]), true) != {}
    {
      var z := Place(sc, p[y]);
      StackedAt(sc, plan, c, z, true);
      StackedAt(sc, plan, c, z, false);
    }
  }

  lemma StepStaysSingle(sc: Scope, server: Board, local: Board, plan: Plan, c: Change)
    requires local == Overlay(sc, server, plan) && Kept(sc, server, plan) && Guarded(sc, local, c)
    requires !Loses(sc, server, plan, c)
    ensures Single(sc, Stacked(plan, c))
  {
    var p, x := Stacked(plan, c), Place(sc, c);
    SingleByPlace(sc, plan);
    forall y | y in p
      ensures At(p[y]) == y
    {
      assert y != At(c) ==> p[y] == plan[y];
    }
    hide Stacked, Place, Applied, At, Overlay, Loses, Alone;
    forall z
      ensures Alone(sc, p, z)
    {
      assert Alone(sc, plan, z);
      if z == x && !Nowhere(x) {
        AloneHere(sc, server, local, plan, c);
      } else {
        AloneElsewhere(sc, plan, c, z);
      }
    }
    SingleByPlace(sc, p);
  }

  lemma AloneElsewhere(sc: Scope, plan: Plan, c: Change, z: Slot)
    requires Single(sc, plan) && Alone(sc, plan, z) && (z != Place(sc, c) || Nowhere(z))
    ensures Alone(sc, Stacked(plan, c), z)
  {
    StackedAt(sc, plan, c, z, true);
    StackedAt(sc, plan, c, z, false);
  }

  lemma AloneHere(sc: Scope, server: Board, local: Board, plan: Plan, c: Change)
    requires local == Overlay(sc, server, plan) && Kept(sc, server, plan) && Guarded(sc, local, c)
    requires !Loses(sc, server, plan, c) && Alone(sc, plan, Place(sc, c)) && !Nowhere(Place(sc, c))
    ensures Alone(sc, Stacked(plan, c), Place(sc, c))
  {
    hide Stacked, Place, At, Overlay, Kept, Loses, PendingAt, Guarded, Nowhere;
    var x, p := Place(sc, c), Stacked(plan, c);
    InSlots(sc, server, plan);
    StackedAt(sc, plan, c, x, true);
    StackedAt(sc, plan, c, x, false);
    if !Opposed(plan, c) {
      NoOther(sc, server, local, plan, c);
    }
    if Opposed(plan, c) {
      assert PendingAt(sc, p, x, true) <= PendingAt(sc, plan, x, true);
      assert PendingAt(sc, p, x, false) <= PendingAt(sc, plan, x, false);
    } else {
      assert PendingAt(sc, p, x, c.add) <= {At(c)};
      assert PendingAt(sc, p, x, !c.add) == PendingAt(sc, plan, x, !c.add);
    }
  }

  lemma InSlots(sc: Scope, server: Board, plan: Plan)
    requires Kept(sc, server, plan)
    ensures forall y :: y in plan ==> At(plan[y]) == y
  {
  }

  /** A change that does not lose and is not opposed finds no other of its kind at its place. */
  lemma NoOther(sc: Scope, server: Board, local: Board, plan: Plan, c: Change)
    requires local == Overlay(sc, server, plan) && Kept(sc, server, plan) && Guarded(sc, local, c)
    requires !Loses(sc, server, plan, c) && !Opposed(plan, c) && !Nowhere(Place(sc, c))
    ensures PendingAt(sc, plan, Place(sc, c), c.add) <= {At(c)}
  {
    var x := Place(sc, c);
    if !Many(c.mode.kind) {
      OneSlot(sc, server, plan, c, c.add);
    } else {
      OverlayCell(sc, server, plan, x);
      KeptCell(sc, server, plan, c);
    }
  }

  /** A removal waits that is about the same mask or member and is spelled or named differently, or that is not of what
      the server holds in that spelling. */
  ghost predicate InTheWay(sc: Scope, server: Board, plan: Plan, c: Change, y: Slot) {
    && y in plan && !plan[y].add && Place(sc, plan[y]) == Place(sc, c) && !Nowhere(Place(sc, c))
    && (y != At(c) || (c.mode.kind.List? && Look(server, Place(sc, c)) != Some(c.value)))
  }

  /** Which changes lose: none of a regular mode; the addition of a mask or a status with a removal in the way; and a
      change of a parameter mode that cancels the opposite one while the server holds another value, or any. */
  lemma LosesByKind(sc: Scope, server: Board, local: Board, plan: Plan, c: Change)
    requires Kept(sc, server, plan) && Guarded(sc, local, c) && Plain(server)
    ensures c.mode.kind.Regular? ==> !Loses(sc, server, plan, c)
    ensures Many(c.mode.kind) ==> (Loses(sc, server, plan, c) <==> (c.add && exists y :: InTheWay(sc, server, plan, c, y)))
    ensures c.mode.kind.Param? ==> (Loses(sc, server, plan, c) <==> (Opposed(plan, c) &&
      (if c.add then Look(server, Place(sc, c)) != Some(c.value) else Place(sc, c) in server)))
  {
    if !Nowhere(Place(sc, c)) {
      KeptCell(sc, server, plan, c);
      if !Many(c.mode.kind) {
        OneSlot(sc, server, plan, c, true);
        OneSlot(sc, server, plan, c, false);
      } else if c.add {
        ManyLose(sc, server, plan, c);
      }
    }
  }

  lemma ManyLose(sc: Scope, server: Board, plan: Plan, c: Change)
    requires Kept(sc, server, plan) && Plain(server) && c.add && Many(c.mode.kind) && !Nowhere(Place(sc, c))
    ensures Loses(sc, server, plan, c) <==> exists y :: InTheWay(sc, server, plan, c, y)
  {
    var x := Place(sc, c);
    KeptCell(sc, server, plan, c);
    if DelAt(sc, plan, x) {
      var y :| y in PendingAt(sc, plan, x, false);
      assert forall z :: z in plan && !plan[z].add && Place(sc, plan[z]) == x ==> z == y;
      if Opposed(plan, c) {
        StackedAt(sc, plan, c, x, true);
        assert y == At(c);
        CancelledCell(sc, server, plan, c);
      }
      assert InTheWay(sc, server, plan, c, y) <==> (exists z :: InTheWay(sc, server, plan, c, z));
    } else {
      assert forall y :: y in plan && !plan[y].add && Place(sc, plan[y]) == x ==> y in PendingAt(sc, plan, x, false);
    }
  }

  /** With its removal cancelled a mask is as it should be if the server holds it so, and a status always is. */
  lemma CancelledCell(sc: Scope, server: Board, plan: Plan, c: Change)
    requires Kept(sc, server, plan) && Plain(server) && c.add && Many(c.mode.kind) && !Nowhere(Place(sc, c)) && Opposed(plan, c)
    ensures var x := Place(sc, c);
      Cell(true, Look(server, x), AddAt(sc, plan, x), false) == Some(Worth(sc, c)) <==>
        (c.mode.kind.Status? || Look(server, x) == Some(c.value))
  {
    var x := Place(sc, c);
    KeptCell(sc, server, plan, c);
    if AddAt(sc, plan, x).Some? {
      var y :| y in PendingAt(sc, plan, x, true);
      AddedIs(sc, plan, x, y);
      assert At(plan[y]) == y && plan[y].mode == c.mode;
    }
  }
}
