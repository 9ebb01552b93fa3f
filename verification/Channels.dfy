/** Channel modes and statuses: src/channels.cpp. */
module Channels {
  import opened Wrappers
  import opened Modes
  import opened ModeLines
  import opened ChannelStates

  class Channel {
    const net: Services
    const stacker: StackerInfo
    var created: int
    var syncing: bool
    var modes: map<Slot, string>
    var users: map<string, set<Mode>>

    constructor (net: Services, ts: int)
      ensures this.net == net && fresh(stacker) && stacker.Valid() && AtDesk() == Desk(State(map[], map[]), map[])
      ensures created == ts && !syncing
    {
      this.net := net;
      stacker := new StackerInfo();
      created, syncing, modes, users := ts, false, map[], map[];
    }

    ghost function St(): State
      reads this
    {
      State(modes, users)
    }

    ghost function Here(): Scope
      reads this
    {
      Scope(net, users.Keys)
    }

    ghost function AtDesk(): Desk
      reads this, stacker
    {
      Desk(St(), stacker.Pending())
    }

    method SetModeInternal(m: Mode, v: string)
      modifies this`modes, this`users
      ensures St() == Internal(net, old(St()), Change(m, true, v))
    {
      if m.kind.Status? {
        if v == "" {
          return;
        }
        var u := net.find(v);
        if u.None? {
          return;
        }
        if u.value in users {
          users := users[u.value := users[u.value] + {m}];
        }
        return;
      }
      if !m.kind.List? {
        modes := modes - {(m, "")};
      } else if HasMode(net, State(modes, users), m, v) {
        return;
      }
      modes := modes[Key(net, m, v) := v];
    }

    method RemoveModeInternal(m: Mode, v: string)
      modifies this`modes, this`users
      ensures St() == Internal(net, old(St()), Change(m, false, v))
      ensures m.kind.Status? && v != "" && net.findBot(v).Some? ==>
        var b := net.findBot(v).value;
        users == if b in old(users) then old(users)[b := old(users)[b] - {m}] else old(users)
    {
      if m.kind.Status? {
        if v == "" {
          return;
        }
        var bi := net.findBot(v);
        var u := if bi.Some? then bi else net.find(v);
        if u.None? {
          return;
        }
        if u.value in users {
          users := users[u.value := users[u.value] - {m}];
        }
        return;
      }
      modes := modes - {Key(net, m, v)};
    }

    method SetMode(m: Mode, v: string)
      requires stacker.Valid()
      modifies this`modes, this`users, stacker
      ensures stacker.Valid() && AtDesk() == Do(net, old(AtDesk()), SetCall(m, v))
      ensures Tidy(old(Here()), old(St())) && GoodSet(old(Here()), m, v) ==> SetOutcome(old(Here()), old(AtDesk()), m, v, AtDesk())
    {
      hide Internal, Stacked, HasMode, Tidy, GoodSet, SetOutcome;
      ghost var here, desk := Here(), AtDesk();
      if Tidy(here, desk.state) && GoodSet(here, m, v) {
        SetIsDone(here, desk, m, v);
      }
      var s, value := State(modes, users), v;
      if m.kind.Regular? && HasMode(net, s, m, "") {
        return;
      } else if m.kind.Param? {
        var valid := net.validParam(m, v);
        if valid.None? {
          return;
        }
        value := valid.value;
        if (m, "") in modes && modes[(m, "")] == value {
          return;
        }
      } else if m.kind.Status? {
        var u := net.find(v);
        if u.None? || HasStatus(s, u.value, m) {
          return;
        }
      } else if m.kind.List? {
        var valid := net.validMask(m, v);
        if valid.None? {
          return;
        }
        value := valid.value;
        if HasMode(net, s, m, value) {
          return;
        }
      }
      stacker.AddMode(m, true, value);
      SetModeInternal(m, value);
    }

    method RemoveMode(m: Mode, v: string)
      requires stacker.Valid()
      modifies this`modes, this`users, stacker
      ensures stacker.Valid() && AtDesk() == Do(net, old(AtDesk()), RemoveCall(m, v))
      ensures Tidy(old(Here()), old(St())) && GoodRemove(old(Here()), m, v) ==> RemoveOutcome(old(Here()), old(AtDesk()), m, v, AtDesk())
    {
      hide Internal, Stacked, HasMode, Tidy, GoodRemove, RemoveOutcome;
      ghost var here, desk := Here(), AtDesk();
      if Tidy(here, desk.state) && GoodRemove(here, m, v) {
        RemoveIsDone(here, desk, m, v);
      }
      var s := State(modes, users);
      if (m.kind.Regular? || m.kind.Param?) && !HasMode(net, s, m, "") {
        return;
      }
      if m.kind.Status? {
        var u := net.find(v);
        if u.None? || !HasStatus(s, u.value, m) {
          return;
        }
      } else if m.kind.List? {
        if !HasMode(net, s, m, v) {
          return;
        }
      }
      var param := v;
      if m.kind.Param? {
        param := "";
        if !m.kind.minusNoArg && (m, "") in modes {
          param := modes[(m, "")];
        }
      }
      stacker.AddMode(m, false, param);
      RemoveModeInternal(m, param);
    }

    /** The reading loop of SetModesInternal. */
    method ReadLine(line: Line)
      modifies this`modes, this`users
      ensures St() == InternalAll(net, old(St()), Read(net.table, line))
    {
      hide Internal, InternalAll, Decode;
      var sign: Option<bool> := None;
      var k := 0;
      assert line.modes[0..] == line.modes && line.params[0..] == line.params;
      for i := 0 to |line.modes|
        invariant 0 <= k <= |line.params|
        invariant InternalAll(net, old(St()), Read(net.table, line)) ==
          InternalAll(net, St(), Decode(net.table, line.modes[i..], line.params[k..], sign))
      {
        DecodeStep(net, St(), line, i, k, sign);
        var mchar := line.modes[i];
        if mchar == '+' {
          sign := Some(true);
          continue;
        } else if mchar == '-' {
          sign := Some(false);
          continue;
        } else if sign.None? || mchar !in net.table {
          continue;
        }
        var cm := net.table[mchar];
        if cm.kind.Regular? {
          if sign.value {
            SetModeInternal(cm, "");
          } else {
            RemoveModeInternal(cm, "");
          }
          continue;
        } else if cm.kind.Param? && !sign.value && cm.kind.minusNoArg {
          RemoveModeInternal(cm, "");
          continue;
        }
        if k < |line.params| {
          var token := line.params[k];
          k := k + 1;
          if sign.value {
            SetModeInternal(cm, token);
          } else {
            RemoveModeInternal(cm, token);
          }
        }
      }
      assert line.modes[|line.modes|..] == "";
      DecodeEnd(net, St(), line.params[k..], sign);
    }

    /** Modes are cleared, and so is the status of all but users of ours, for whom it is asked for again. */
    method Reset()
      requires stacker.Valid() && Real(net, users)
      modifies this`modes, this`users, stacker
      ensures stacker.Valid() && AtDesk() == ResetDesk(net, old(AtDesk()))
    {
      hide Do, Stacked, Asked, OwnStatuses, OwnOf, Cleared, Real;
      modes := map[];
      ghost var plan, was := stacker.Pending(), users;
      ghost var asked: set<Slot> := {};
      var todo := users.Keys;
      ResetStarts(net, plan, was);
      while todo != {}
        invariant stacker.Valid() && modes == map[] && todo <= was.Keys
        invariant users == Cleared(net, was, todo)
        invariant asked == OwnStatuses(net, was, was.Keys - todo)
        invariant stacker.Pending() == Asked(plan, asked)
      {
        var u :| u in todo;
        OwnStep(net, was, todo, u);
        ClearStep(net, was, todo, u);
        if net.mine(u) {
          AskAgain(u, plan, asked);
          asked := asked + OwnOf(u, was[u]);
        } else {
          users := users[u := {}];
        }
        todo := todo - {u};
      }
      assert was.Keys - todo == was.Keys;
    }

    /** The status of one user of ours is cleared, set mode by mode, and put back. */
    method AskAgain(u: string, ghost plan: Plan, ghost asked: set<Slot>)
      requires stacker.Valid() && Real(net, users) && u in users && stacker.Pending() == Asked(plan, asked)
      requires OwnOf(u, users[u]) !! asked
      modifies this`modes, this`users, stacker
      ensures stacker.Valid() && users == old(users) && modes == old(modes)
      ensures stacker.Pending() == Asked(plan, asked + OwnOf(u, users[u]))
    {
      var f := users[u];
      assert net.find(u) == Some(u) && u != "" && forall m :: m in f ==> m.kind.Status?;
      hide *;
      users := users[u := {}];
      AskEach(u, f, plan, asked);
      users := users[u := f];
      assert users == old(users);
    }

    /** The loop over the modes of a status that is cleared. */
    method AskEach(u: string, f: set<Mode>, ghost plan: Plan, ghost asked: set<Slot>)
      requires stacker.Valid() && u in users && users[u] == {} && stacker.Pending() == Asked(plan, asked)
      requires net.find(u) == Some(u) && u != "" && OwnOf(u, f) !! asked && forall m :: m in f ==> m.kind.Status?
      modifies this`modes, this`users, stacker
      ensures stacker.Valid() && users == old(users)[u := f] && modes == old(modes)
      ensures stacker.Pending() == Asked(plan, asked + OwnOf(u, f))
    {
      hide *;
      var left := f;
      ghost var done: set<Mode> := {};
      OwnMore(u, {}, f, plan, asked);
      while left != {}
        invariant left + done == f && left !! done && u in users && users[u] == done
        invariant stacker.Valid() && users == old(users)[u := done] && modes == old(modes)
        invariant stacker.Pending() == Asked(plan, asked + OwnOf(u, done))
      {
        var m :| m in left;
        OwnMore(u, done, f, plan, asked);
        assert m in f && m !in done;
        AskOne(m, u);
        left, done := left - {m}, done + {m};
      }
      assert done == f;
    }

    method AskOne(m: Mode, u: string)
      requires stacker.Valid() && m.kind.Status? && u != "" && net.find(u) == Some(u) && u in users && m !in users[u]
      modifies this`modes, this`users, stacker
      ensures stacker.Valid() && users == old(users)[u := old(users)[u] + {m}] && modes == old(modes)
      ensures stacker.Pending() == Stacked(old(stacker.Pending()), Change(m, true, u))
    {
      hide Do, Stacked;
      DoAsk(net, AtDesk(), m, u);
      SetMode(m, u);
    }

    method JoinUser(u: string, status: Option<set<Mode>>)
      modifies this`users
      ensures users == old(users)[u := if status.Some? then status.value else {}]
    {
      users := users[u := {}];
      if status.Some? {
        users := users[u := status.value];
      }
    }

    /** SetModesInternal: an older timestamp resets the channel, a newer one is dropped, 0 stands for none. */
    method SetModesInternal(line: Line, ts: int)
      requires stacker.Valid() && Real(net, users)
      modifies this`created, this`modes, this`users, stacker
      ensures stacker.Valid()
      ensures created == if ts != 0 && ts < old(created) then ts else old(created)
      ensures AtDesk() ==
        if ts == 0 || ts == old(created) then old(AtDesk()).(state := InternalAll(net, old(St()), Read(net.table, line)))
        else if ts > old(created) then old(AtDesk())
        else var d := ResetDesk(net, old(AtDesk())); d.(state := InternalAll(net, d.state, Read(net.table, line)))
    {
      hide ResetDesk, InternalAll, Read;
      if ts == 0 {
      } else if ts > created {
        return;
      } else if ts < created {
        created := ts;
        Reset();
      }
      ReadLine(line);
    }
  }

  /** The members of the channel are found by their ids, and their status is made of status modes. */
  ghost predicate Real(net: Services, users: map<string, set<Mode>>) {
    forall u :: u in users ==> net.find(u) == Some(u) && u != "" && forall m :: m in users[u] ==> m.kind.Status?
  }

  ghost function OwnStatuses(net: Services, users: map<string, set<Mode>>, among: set<string>): set<Slot> {
    set u, m | u in users && u in among && net.mine(u) && m in users[u] :: (m, u)
  }

  /** The pending changes after these statuses have been asked for. */
  ghost function Asked(plan: Plan, xs: set<Slot>): Plan {
    map x: Slot | x in plan.Keys + xs && (x in plan && x in xs ==> plan[x].add) :: if x in xs then Change(x.0, true, x.1) else plan[x]
  }

  ghost function OwnOf(u: string, ms: set<Mode>): set<Slot> {
    set m | m in ms :: (m, u)
  }

  lemma OwnMore(u: string, done: set<Mode>, f: set<Mode>, plan: Plan, asked: set<Slot>)
    requires done <= f && OwnOf(u, f) !! asked && forall m :: m in f ==> m.kind.Status?
    ensures done == {} ==> asked + OwnOf(u, done) == asked
    ensures forall m :: m in f && m !in done ==>
      Asked(plan, asked + OwnOf(u, done + {m})) == Stacked(Asked(plan, asked + OwnOf(u, done)), Change(m, true, u))
  {
    hide Asked, Stacked;
    forall m | m in f && m !in done
      ensures Asked(plan, asked + OwnOf(u, done + {m})) == Stacked(Asked(plan, asked + OwnOf(u, done)), Change(m, true, u))
    {
      assert (m, u) in OwnOf(u, f);
      assert asked + OwnOf(u, done + {m}) == asked + OwnOf(u, done) + {(m, u)};
      AskedStep(plan, asked + OwnOf(u, done), m, u);
    }
  }

  /** The members with the status of all but those to do, and those of ours, cleared. */
  ghost function Cleared(net: Services, users: map<string, set<Mode>>, todo: set<string>): map<string, set<Mode>> {
    map u | u in users :: if u in todo || net.mine(u) then users[u] else {}
  }

  lemma ResetStarts(net: Services, plan: Plan, users: map<string, set<Mode>>)
    ensures Cleared(net, users, users.Keys) == users
    ensures OwnStatuses(net, users, users.Keys - users.Keys) == {} && Asked(plan, {}) == plan
  {
  }

  lemma ClearStep(net: Services, users: map<string, set<Mode>>, todo: set<string>, u: string)
    requires Real(net, users) && u in users && u in todo
    ensures var now := Cleared(net, users, todo);
      && Real(net, now) && u in now && now[u] == users[u]
      && Cleared(net, users, todo - {u}) == if net.mine(u) then now else now[u := {}]
  {
  }

  lemma OwnStep(net: Services, users: map<string, set<Mode>>, todo: set<string>, u: string)
    requires u in users && u in todo
    ensures OwnOf(u, users[u]) !! OwnStatuses(net, users, users.Keys - todo)
    ensures OwnStatuses(net, users, users.Keys - (todo - {u})) ==
      if net.mine(u) then OwnStatuses(net, users, users.Keys - todo) + OwnOf(u, users[u]) else OwnStatuses(net, users, users.Keys - todo)
  {
  }

  /** A status that a member lacks passes the guard. */
  lemma DoAsk(net: Services, d: Desk, m: Mode, u: string)
    requires m.kind.Status? && u != "" && net.find(u) == Some(u) && u in d.state.users && m !in d.state.users[u]
    ensures Do(net, d, SetCall(m, u)) ==
      Desk(d.state.(users := d.state.users[u := d.state.users[u] + {m}]), Stacked(d.plan, Change(m, true, u)))
  {
  }

  lemma AskedStep(plan: Plan, xs: set<Slot>, m: Mode, u: string)
    requires (m, u) !in xs && m.kind.Status?
    ensures Asked(plan, xs + {(m, u)}) == Stacked(Asked(plan, xs), Change(m, true, u))
  {
  }

  ghost function ResetDesk(net: Services, d: Desk): Desk {
    var users := d.state.users;
    Desk(State(map[], Cleared(net, users, {})), Asked(d.plan, OwnStatuses(net, users, users.Keys)))
  }

  /** One character of a line. */
  lemma DecodeStep(net: Services, s: State, line: Line, i: nat, k: nat, sign: Option<bool>)
    requires i < |line.modes| && k <= |line.params|
    ensures var c := line.modes[i];
      var now := InternalAll(net, s, Decode(net.table, line.modes[i..], line.params[k..], sign));
      var next := line.modes[i + 1..];
      if c == '+' then now == InternalAll(net, s, Decode(net.table, next, line.params[k..], Some(true)))
      else if c == '-' then now == InternalAll(net, s, Decode(net.table, next, line.params[k..], Some(false)))
      else if sign.None? || c !in net.table then now == InternalAll(net, s, Decode(net.table, next, line.params[k..], sign))
      else
        var cm := net.table[c];
        if cm.kind.Regular? || (cm.kind.Param? && !sign.value && cm.kind.minusNoArg) then
          now == InternalAll(net, Internal(net, s, Change(cm, sign.value, "")), Decode(net.table, next, line.params[k..], sign))
        else if k < |line.params| then
          now == InternalAll(net, Internal(net, s, Change(cm, sign.value, line.params[k])), Decode(net.table, next, line.params[k + 1..], sign))
        else
          now == InternalAll(net, s, Decode(net.table, next, line.params[k..], sign))
  {
    hide Internal;
    assert line.modes[i..][0] == line.modes[i] && line.modes[i..][1..] == line.modes[i + 1..];
    if k < |line.params| {
      assert line.params[k..][0] == line.params[k] && line.params[k..][1..] == line.params[k + 1..];
    }
    forall c: Change, rest: seq<Change>
      ensures InternalAll(net, s, [c] + rest) == InternalAll(net, Internal(net, s, c), rest)
    {
      assert ([c] + rest)[1..] == rest;
    }
  }

  lemma DecodeEnd(net: Services, s: State, params: seq<string>, sign: Option<bool>)
    ensures InternalAll(net, s, Decode(net.table, "", params, sign)) == s
  {
  }
}
