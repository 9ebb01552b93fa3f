/** What a channel holds and what calls and changes make of it: src/channels.cpp on values. */
module ChannelStates {
  import opened Wrappers
  import opened Modes
  import opened ModeLines

  /** What a channel asks of the rest of services: users and bots are found by id or nick and given by their ids, and
      a valid parameter or mask comes back as it is to be queued. */
  datatype Services = Services(
    table: Table,
    fold: string -> string,
    find: string -> Option<string>,
    findBot: string -> Option<string>,
    mine: string -> bool,
    validParam: (Mode, string) -> Option<string>,
    validMask: (Mode, string) -> Option<string>
  )
  {
    /** Whom a status change is about: a removal looks among the bots first. */
    function Target(c: Change): Option<string> {
      if !c.add && findBot(c.value).Some? then findBot(c.value) else find(c.value)
    }
  }

  /** The mode items, those of a list by their folded masks and others by "", and the status of every member by id. */
  datatype State = State(modes: map<Slot, string>, users: map<string, set<Mode>>)

  function Key(net: Services, m: Mode, v: string): Slot {
    (m, if m.kind.List? then net.fold(v) else "")
  }

  predicate HasMode(net: Services, s: State, m: Mode, v: string) {
    if v == "" then exists x :: x in s.modes && x.0 == m else Key(net, m, v) in s.modes
  }

  predicate HasStatus(s: State, u: string, m: Mode) {
    u in s.users && m in s.users[u]
  }

  /** The state after SetModeInternal or RemoveModeInternal. */
  function Internal(net: Services, s: State, c: Change): State {
    var m, v := c.mode, c.value;
    if m.kind.Status? then
      var u := net.Target(c);
      if v == "" || u.None? || u.value !in s.users then s
      else s.(users := s.users[u.value := if c.add then s.users[u.value] + {m} else s.users[u.value] - {m}])
    else if !c.add then s.(modes := s.modes - {Key(net, m, v)})
    else if m.kind.List? && HasMode(net, s, m, v) then s
    else s.(modes := s.modes[Key(net, m, v) := v])
  }

  ghost function InternalAll(net: Services, s: State, cs: seq<Change>): State
    decreases |cs|
  {
    if cs == [] then s else InternalAll(net, Internal(net, s, cs[0]), cs[1..])
  }

  // ---------- guarded calls ----------

  datatype Call = SetCall(mode: Mode, value: string) | RemoveCall(mode: Mode, value: string)

  /** A call changes nothing that is already so. */
  predicate Passes(net: Services, s: State, call: Call) {
    var m, v := call.mode, call.value;
    match call
    case SetCall(_, _) =>
      (match m.kind
       case Regular => !HasMode(net, s, m, "")
       case Param(_) => net.validParam(m, v).Some? && !((m, "") in s.modes && s.modes[(m, "")] == net.validParam(m, v).value)
       case Status => net.find(v).Some? && !HasStatus(s, net.find(v).value, m)
       case List => net.validMask(m, v).Some? && !HasMode(net, s, m, net.validMask(m, v).value))
    case RemoveCall(_, _) =>
      (match m.kind
       case Regular => HasMode(net, s, m, "")
       case Param(_) => HasMode(net, s, m, "")
       case Status => net.find(v).Some? && HasStatus(s, net.find(v).value, m)
       case List => HasMode(net, s, m, v))
  }

  /** The value that SetMode goes on with. */
  function Checked(net: Services, m: Mode, v: string): string {
    var valid := if m.kind.Param? then net.validParam(m, v) else if m.kind.List? then net.validMask(m, v) else None;
    if valid.Some? then valid.value else v
  }

  /** The change that a call queues: a parameter mode is removed with its own value, or with none. */
  function ChangeOf(net: Services, s: State, call: Call): Change {
    var m := call.mode;
    match call
    case SetCall(_, v) => Change(m, true, Checked(net, m, v))
    case RemoveCall(_, v) =>
      Change(m, false,
        if !m.kind.Param? then v
        else if m.kind.minusNoArg || (m, "") !in s.modes then ""
        else s.modes[(m, "")])
  }

  /** A channel and the changes that wait to be sent for it. */
  datatype Desk = Desk(state: State, plan: Plan)

  function Do(net: Services, d: Desk, call: Call): Desk {
    if Passes(net, d.state, call) then
      var c := ChangeOf(net, d.state, call);
      Desk(Internal(net, d.state, c), Stacked(d.plan, c))
    else
      d
  }

  ghost function Run(net: Services, d: Desk, calls: seq<Call>): Desk
    decreases |calls|
  {
    if calls == [] then d else Run(net, Do(net, d, calls[0]), calls[1..])
  }

  // ---------- boards ----------

  /** A channel's surroundings and the ids of its members. */
  datatype Scope = Scope(net: Services, members: set<string>)

  // ---------- boards ----------

  /** All that is set on a channel, modes and statuses alike: list items by their folded masks, statuses by the ids of
      the members. */
  type Board = map<Slot, string>

  ghost function Statuses(s: State): set<Slot> {
    set u, m | u in s.users && m in s.users[u] :: (m, u)
  }

  ghost function BoardOf(s: State): Board {
    map x: Slot | x in s.modes.Keys + Statuses(s) :: if x in s.modes then s.modes[x] else x.1
  }

  /** Modes of which several pending changes, with different masks or names, can be about one place. */
  predicate Many(kind: Kind) {
    kind.List? || kind.Status?
  }

  /** The id of the member whom a status change names, by id or nick, or "" if it names none. */
  function Member(sc: Scope, name: string): string {
    var u := sc.net.find(name);
    if name != "" && u.Some? && u.value in sc.members then u.value else ""
  }

  /** The place on the board that a change is about. */
  function Place(sc: Scope, c: Change): Slot {
    if c.mode.kind.Status? then (c.mode, Member(sc, c.value)) else Key(sc.net, c.mode, c.value)
  }

  /** The place of statuses of users who are not on the channel. */
  predicate Nowhere(x: Slot) {
    x.0.kind.Status? && x.1 == ""
  }

  /** What an addition puts into its place. */
  function Worth(sc: Scope, c: Change): string {
    if c.mode.kind.Status? then Member(sc, c.value) else c.value
  }

  function Applied(sc: Scope, b: Board, c: Change): Board {
    var x := Place(sc, c);
    if Nowhere(x) then b
    else if !c.add then b - {x}
    else if Many(c.mode.kind) && x in b then b
    else b[x := Worth(sc, c)]
  }

  ghost function AppliedAll(sc: Scope, b: Board, cs: seq<Change>): Board
    decreases |cs|
  {
    if cs == [] then b else AppliedAll(sc, Applied(sc, b, cs[0]), cs[1..])
  }

  /** A change with the value that its mode takes; the removal of a status names no bot but the user of that name. */
  predicate Proper(sc: Scope, c: Change) {
    match c.mode.kind
    case Regular => c.value == ""
    case Param(_) => c.add ==> c.value != ""
    case List => c.value != ""
    case Status => c.value != "" && sc.net.Target(c) == sc.net.find(c.value)
  }

  /** The state of a channel with these members holds items of proper changes only. */
  ghost predicate Tidy(sc: Scope, s: State) {
    && s.users.Keys == sc.members && "" !in sc.members
    && (forall x :: x in s.modes ==> !x.0.kind.Status?)
    && (forall x :: x in s.modes && x.0.kind.List? ==> sc.net.fold(s.modes[x]) == x.1 && s.modes[x] != "")
    && (forall x :: x in s.modes && x.0.kind.Regular? ==> s.modes[x] == "" && x.1 == "")
    && (forall x :: x in s.modes && x.0.kind.Param? ==> s.modes[x] != "" && x.1 == "")
    && (forall u, m :: u in s.users && m in s.users[u] ==> m.kind.Status?)
  }

  /** On tidy states proper changes are updates of one place of the board, and those of statuses of users who are not
      on the channel are none. */
  lemma InternalIsApplied(sc: Scope, s: State, c: Change)
    requires Tidy(sc, s) && Proper(sc, c)
    ensures Tidy(sc, Internal(sc.net, s, c))
    ensures BoardOf(Internal(sc.net, s, c)) == Applied(sc, BoardOf(s), c)
  {
    if c.mode.kind.Status? {
      StatusIsApplied(sc, s, c);
    } else {
      ItemIsApplied(sc, s, c);
    }
  }

  lemma StatusIsApplied(sc: Scope, s: State, c: Change)
    requires Tidy(sc, s) && Proper(sc, c) && c.mode.kind.Status?
    ensures Tidy(sc, Internal(sc.net, s, c))
    ensures BoardOf(Internal(sc.net, s, c)) == Applied(sc, BoardOf(s), c)
  {
    var s', x := Internal(sc.net, s, c), Place(sc, c);
    if !Nowhere(x) {
      StatusIsSet(sc, s, c);
      hide Internal, Statuses, Tidy, BoardOf, Proper, Member;
      BoardTurns(s, s', x, c.add);
      BoardHolds(s, x);
    }
  }

  lemma StatusIsSet(sc: Scope, s: State, c: Change)
    requires Tidy(sc, s) && Proper(sc, c) && c.mode.kind.Status? && !Nowhere(Place(sc, c))
    ensures var s', x := Internal(sc.net, s, c), Place(sc, c);
      s'.modes == s.modes && x !in s.modes && Statuses(s') == if c.add then Statuses(s) + {x} else Statuses(s) - {x}
  {
  }

  lemma BoardHolds(s: State, x: Slot)
    requires x !in s.modes
    ensures x in BoardOf(s) ==> BoardOf(s)[x] == x.1
  {
  }

  lemma BoardTurns(s: State, s': State, x: Slot, add: bool)
    requires s'.modes == s.modes && x !in s.modes
    requires Statuses(s') == if add then Statuses(s) + {x} else Statuses(s) - {x}
    ensures BoardOf(s') == if add then BoardOf(s)[x := x.1] else BoardOf(s) - {x}
  {
    hide Statuses;
  }

  lemma ItemIsApplied(sc: Scope, s: State, c: Change)
    requires Tidy(sc, s) && Proper(sc, c) && !c.mode.kind.Status?
    ensures Tidy(sc, Internal(sc.net, s, c))
    ensures BoardOf(Internal(sc.net, s, c)) == Applied(sc, BoardOf(s), c)
  {
    ItemIsSet(sc, s, c);
    ItemApart(sc, s, c);
    hide Internal, Tidy, Proper, BoardOf, Key;
    if !c.add {
      BoardDrops(s, Place(sc, c));
    } else if !(c.mode.kind.List? && Place(sc, c) in s.modes) {
      BoardGains(s, Place(sc, c), c.value);
    }
    assert Place(sc, c) in BoardOf(s) <==> Place(sc, c) in s.modes by {
      BoardHas(s, Place(sc, c));
    }
  }

  lemma ItemIsSet(sc: Scope, s: State, c: Change)
    requires Tidy(sc, s) && Proper(sc, c) && !c.mode.kind.Status?
    ensures Internal(sc.net, s, c) ==
      if !c.add then s.(modes := s.modes - {Place(sc, c)})
      else if c.mode.kind.List? && Place(sc, c) in s.modes then s
      else s.(modes := s.modes[Place(sc, c) := c.value])
    ensures Tidy(sc, Internal(sc.net, s, c))
  {
  }

  lemma ItemApart(sc: Scope, s: State, c: Change)
    requires Tidy(sc, s) && !c.mode.kind.Status?
    ensures Place(sc, c) !in Statuses(s)
  {
  }

  lemma BoardHas(s: State, x: Slot)
    ensures x in BoardOf(s) <==> x in s.modes || x in Statuses(s)
  {
  }

  lemma BoardGains(s: State, x: Slot, v: string)
    ensures BoardOf(s.(modes := s.modes[x := v])) == BoardOf(s)[x := v]
  {
    var s' := s.(modes := s.modes[x := v]);
    assert Statuses(s') == Statuses(s);
    hide Statuses;
  }

  lemma BoardDrops(s: State, x: Slot)
    requires x !in Statuses(s)
    ensures BoardOf(s.(modes := s.modes - {x})) == BoardOf(s) - {x}
  {
    var s' := s.(modes := s.modes - {x});
    assert Statuses(s') == Statuses(s);
    hide Statuses;
  }

  lemma {:induction false} InternalAllIsApplied(sc: Scope, s: State, cs: seq<Change>)
    requires Tidy(sc, s) && forall i :: 0 <= i < |cs| ==> Proper(sc, cs[i])
    ensures Tidy(sc, InternalAll(sc.net, s, cs))
    ensures BoardOf(InternalAll(sc.net, s, cs)) == AppliedAll(sc, BoardOf(s), cs)
    decreases |cs|
  {
    hide Tidy, Internal, BoardOf, Applied, Proper;
    if cs != [] {
      InternalIsApplied(sc, s, cs[0]);
      InternalAllIsApplied(sc, Internal(sc.net, s, cs[0]), cs[1..]);
    }
  }

  /** A tidy channel is known by its board and its members. */
  lemma BoardTells(sc: Scope, s: State, t: State)
    requires Tidy(sc, s) && Tidy(sc, t) && BoardOf(s) == BoardOf(t)
    ensures s == t
  {
    forall x
      ensures (x in s.modes <==> x in t.modes) && (x in s.modes ==> s.modes[x] == t.modes[x])
    {
      assert x in BoardOf(s) <==> x in BoardOf(t);
      assert x in BoardOf(s) ==> BoardOf(s)[x] == BoardOf(t)[x];
    }
    assert s.modes == t.modes;
    forall u | u in s.users
      ensures s.users[u] == t.users[u]
    {
      forall m
        ensures m in s.users[u] <==> m in t.users[u]
      {
        assert m in s.users[u] ==> (m, u) in BoardOf(s);
        assert m in t.users[u] ==> (m, u) in BoardOf(t);
      }
    }
  }

  // ---------- what a call comes to ----------

  /** The value that SetMode goes on with, unless it refuses the call. */
  function Wanted(net: Services, m: Mode, v: string): Option<string> {
    match m.kind
    case Regular => Some(v)
    case Param(_) => net.validParam(m, v)
    case List => net.validMask(m, v)
    case Status => if net.find(v).Some? then Some(v) else None
  }

  ghost predicate GoodSet(sc: Scope, m: Mode, v: string) {
    Wanted(sc.net, m, v).Some? ==> Proper(sc, Change(m, true, Wanted(sc.net, m, v).value))
  }

  ghost predicate GoodRemove(sc: Scope, m: Mode, v: string) {
    m.kind.Param? || Proper(sc, Change(m, false, v))
  }

  /** A refused call does nothing, and so does one for what is set already; of any other, its one change is pending
      and set, and nothing else has changed. The status of one who is not on the channel is pending only. */
  ghost predicate SetOutcome(sc: Scope, d: Desk, m: Mode, v: string, d': Desk) {
    var w := Wanted(sc.net, m, v);
    if w.None? then d' == d
    else
      var c := Change(m, true, w.value);
      var x, before := Place(sc, c), BoardOf(d.state);
      if Nowhere(x) then d' == d.(plan := Stacked(d.plan, c))
      else
        && x in BoardOf(d'.state)
        && (d' == d <==> x in before && (m.kind.Param? ==> before[x] == w.value))
        && (d' != d ==> BoardOf(d'.state) == before[x := Worth(sc, c)] && d'.plan == Stacked(d.plan, c))
  }

  /** A removal of what is not set, or from one who is not on the channel, does nothing; of any other, its one change
      is pending and made, and nothing else has changed. A parameter mode goes with its own value or with none. */
  ghost predicate RemoveOutcome(sc: Scope, d: Desk, m: Mode, v: string, d': Desk) {
    var x, before := Place(sc, Change(m, false, v)), BoardOf(d.state);
    if Nowhere(x) then d' == d
    else
      && x !in BoardOf(d'.state)
      && (d' == d <==> x !in before)
      && (d' != d ==> BoardOf(d'.state) == before - {x} && d'.plan == Stacked(d.plan, Change(m, false,
           if !m.kind.Param? then v else if m.kind.minusNoArg then "" else before[x])))
  }

  /** On tidy states a mode is there if it has its one place, and a status if it is in the place of the member. */
  lemma HasIsPlace(sc: Scope, s: State, c: Change)
    requires Tidy(sc, s) && Proper(sc, c)
    ensures !Nowhere(Place(sc, c)) ==> (Place(sc, c) in BoardOf(s) <==>
      if c.mode.kind.Status? then sc.net.find(c.value).Some? && HasStatus(s, sc.net.find(c.value).value, c.mode)
      else HasMode(sc.net, s, c.mode, if c.mode.kind.List? then c.value else ""))
    ensures Nowhere(Place(sc, c)) && sc.net.find(c.value).Some? ==> !HasStatus(s, sc.net.find(c.value).value, c.mode)
    ensures Place(sc, c) in BoardOf(s) && !c.mode.kind.Status? ==> Place(sc, c) in s.modes && BoardOf(s)[Place(sc, c)] == s.modes[Place(sc, c)]
  {
    BoardHas(s, Place(sc, c));
    if !c.mode.kind.Status? {
      ItemApart(sc, s, c);
      if !c.mode.kind.List? {
        OnePlace(sc, s, c.mode);
      }
    }
  }

  lemma OnePlace(sc: Scope, s: State, m: Mode)
    requires Tidy(sc, s) && (m.kind.Regular? || m.kind.Param?)
    ensures HasMode(sc.net, s, m, "") <==> (m, "") in s.modes
  {
  }

  lemma SetIsDone(sc: Scope, d: Desk, m: Mode, v: string)
    requires Tidy(sc, d.state) && GoodSet(sc, m, v)
    ensures SetOutcome(sc, d, m, v, Do(sc.net, d, SetCall(m, v)))
  {
    hide Internal, Tidy, BoardOf, Stacked, HasMode, HasStatus, Proper, Member, Key;
    if Wanted(sc.net, m, v).Some? {
      var c := Change(m, true, Wanted(sc.net, m, v).value);
      SetPasses(sc, d.state, m, v);
      InternalIsApplied(sc, d.state, c);
      if Nowhere(Place(sc, c)) {
        BoardTells(sc, Internal(sc.net, d.state, c), d.state);
      }
      hide Passes, Place, Worth;
    }
  }

  /** The guard of SetMode, on the board. */
  lemma SetPasses(sc: Scope, s: State, m: Mode, v: string)
    requires Tidy(sc, s) && GoodSet(sc, m, v)
    ensures Wanted(sc.net, m, v).None? ==> !Passes(sc.net, s, SetCall(m, v))
    ensures Wanted(sc.net, m, v).Some? ==>
      var c := Change(m, true, Wanted(sc.net, m, v).value);
      var x, b := Place(sc, c), BoardOf(s);
      && ChangeOf(sc.net, s, SetCall(m, v)) == c
      && (Passes(sc.net, s, SetCall(m, v)) <==> Nowhere(x) || !(x in b && (m.kind.Param? ==> b[x] == c.value)))
  {
    hide Tidy, BoardOf, HasMode, HasStatus, Member;
    if Wanted(sc.net, m, v).Some? {
      var c := Change(m, true, Wanted(sc.net, m, v).value);
      HasIsPlace(sc, s, c);
      BoardHas(s, Place(sc, c));
      if !m.kind.Status? {
        ItemApart(sc, s, c);
      }
    }
  }

  lemma RemoveIsDone(sc: Scope, d: Desk, m: Mode, v: string)
    requires Tidy(sc, d.state) && GoodRemove(sc, m, v)
    ensures RemoveOutcome(sc, d, m, v, Do(sc.net, d, RemoveCall(m, v)))
  {
    hide Internal, Tidy, BoardOf, Stacked, HasMode, HasStatus, Proper, Member;
    RemovePasses(sc, d.state, m, v);
    var c := ChangeOf(sc.net, d.state, RemoveCall(m, v));
    if Passes(sc.net, d.state, RemoveCall(m, v)) {
      InternalIsApplied(sc, d.state, c);
    }
    hide Passes, Place, ChangeOf;
  }

  /** The guard of RemoveMode, on the board. */
  lemma RemovePasses(sc: Scope, s: State, m: Mode, v: string)
    requires Tidy(sc, s) && GoodRemove(sc, m, v)
    ensures var x, b := Place(sc, Change(m, false, v)), BoardOf(s);
      var c := ChangeOf(sc.net, s, RemoveCall(m, v));
      && (Passes(sc.net, s, RemoveCall(m, v)) <==> !Nowhere(x) && x in b)
      && Place(sc, c) == x && Proper(sc, c)
      && (Passes(sc.net, s, RemoveCall(m, v)) ==>
           c == Change(m, false, if !m.kind.Param? then v else if m.kind.minusNoArg then "" else b[x]))
  {
    hide Tidy, BoardOf, HasMode, HasStatus, Member;
    var c := Change(m, false, v);
    if m.kind.Param? {
      assert Proper(sc, c);
    }
    HasIsPlace(sc, s, c);
    BoardHas(s, Place(sc, c));
    if !m.kind.Status? {
      ItemApart(sc, s, c);
    }
  }
}
