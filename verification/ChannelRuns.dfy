/** Runs of mode calls and their flushes, from services to the server. */
module ChannelRuns {
  import opened Wrappers
  import opened Modes
  import opened ModeLines
  import opened ChannelStates
  import opened Channels
  import opened ChannelSync

  // ---------- runs ----------

  ghost predicate Known(sc: Scope, m: Mode) {
    m.mchar in sc.net.table && sc.net.table[m.mchar] == m
  }

  /** A call about a known mode with a value that its mode takes; removing a parameter mode needs none. */
  ghost predicate GoodCall(sc: Scope, call: Call) {
    Known(sc, call.mode) &&
    match call
    case SetCall(m, v) => Proper(sc, Change(m, true, Checked(sc.net, m, v)))
    case RemoveCall(m, v) => m.kind.Param? || Proper(sc, Change(m, false, v))
  }

  ghost predicate GoodChange(sc: Scope, c: Change) {
    Known(sc, c.mode) && Proper(sc, c) && WellFormed(c)
  }

  /** What waits to be sent can be sent. */
  ghost predicate GoodPlan(sc: Scope, plan: Plan) {
    forall y :: y in plan ==> GoodChange(sc, plan[y])
  }

  /** What a call that passes its guard queues. */
  lemma CallIsChange(sc: Scope, s: State, call: Call)
    requires Tidy(sc, s) && GoodCall(sc, call) && Passes(sc.net, s, call)
    ensures GoodChange(sc, ChangeOf(sc.net, s, call))
    ensures Guarded(sc, BoardOf(s), ChangeOf(sc.net, s, call))
  {
    var m := call.mode;
    BoardHas(s, Place(sc, ChangeOf(sc.net, s, call)));
    if m.kind.Param? || m.kind.Regular? {
      assert HasMode(sc.net, s, m, "") <==> (m, "") in s.modes;
    }
  }

  ghost predicate Together(sc: Scope, server: Board, d: Desk) {
    Tidy(sc, d.state) && InSync(sc, server, d) && Kept(sc, server, d.plan) && GoodPlan(sc, d.plan)
  }

  /** The change of the call, if it passes, loses. */
  ghost predicate CallLoses(sc: Scope, server: Board, d: Desk, call: Call) {
    Passes(sc.net, d.state, call) && Loses(sc, server, d.plan, ChangeOf(sc.net, d.state, call))
  }

  /** One call keeps the whole invariant if and only if its change does not lose. */
  lemma DoExact(sc: Scope, server: Board, d: Desk, call: Call)
    requires Together(sc, server, d) && GoodCall(sc, call)
    ensures Together(sc, server, Do(sc.net, d, call)) <==> !CallLoses(sc, server, d, call)
  {
    hide Passes, Loses, BoardOf, Tidy, Overlay, Applied, Internal, GoodChange, GoodCall, Kept, Guarded;
    if Passes(sc.net, d.state, call) {
      var c := ChangeOf(sc.net, d.state, call);
      CallIsChange(sc, d.state, call);
      GoodIsProper(sc, c);
      InternalIsApplied(sc, d.state, c);
      StepExact(sc, server, BoardOf(d.state), d.plan, c);
      if !Loses(sc, server, d.plan, c) {
        StepKeeps(sc, server, BoardOf(d.state), d.plan, c);
      }
    }
  }

  lemma GoodIsProper(sc: Scope, c: Change)
    requires GoodChange(sc, c)
    ensures Proper(sc, c)
  {
  }

  /** No call of the run loses. */
  ghost predicate LosesNothing(sc: Scope, server: Board, d: Desk, calls: seq<Call>)
    decreases |calls|
  {
    calls == [] || (!CallLoses(sc, server, d, calls[0]) && LosesNothing(sc, server, Do(sc.net, d, calls[0]), calls[1..]))
  }

  /** The invariant holds before, between and after the calls. */
  ghost predicate AlwaysTogether(sc: Scope, server: Board, d: Desk, calls: seq<Call>)
    decreases |calls|
  {
    Together(sc, server, d) && (calls == [] || AlwaysTogether(sc, server, Do(sc.net, d, calls[0]), calls[1..]))
  }

  /** A run stays in sync all the way if and only if no call loses. */
  lemma {:induction false} RunExact(sc: Scope, server: Board, d: Desk, calls: seq<Call>)
    requires Together(sc, server, d) && forall i :: 0 <= i < |calls| ==> GoodCall(sc, calls[i])
    ensures AlwaysTogether(sc, server, d, calls) <==> LosesNothing(sc, server, d, calls)
    ensures LosesNothing(sc, server, d, calls) ==> Together(sc, server, Run(sc.net, d, calls))
    decreases |calls|
  {
    hide Together, Do, CallLoses, GoodCall;
    if calls != [] {
      DoExact(sc, server, d, calls[0]);
      var d' := Do(sc.net, d, calls[0]);
      if Together(sc, server, d') {
        RunExact(sc, server, d', calls[1..]);
      } else {
        NotTogether(sc, server, d', calls[1..]);
      }
    }
  }

  lemma NotTogether(sc: Scope, server: Board, d: Desk, calls: seq<Call>)
    requires !Together(sc, server, d)
    ensures !AlwaysTogether(sc, server, d, calls)
  {
  }

  // ---------- runs that never lose ----------

  /** One spelling for every folded mask of every list mode, and one name for every member. */
  type Spelling = Slot -> string

  predicate Spelt(sc: Scope, sp: Spelling, c: Change) {
    Many(c.mode.kind) && !Nowhere(Place(sc, c)) ==> sp(Place(sc, c)) == c.value
  }

  ghost predicate SpeltBoard(sp: Spelling, b: Board) {
    forall x :: x in b && x.0.kind.List? ==> b[x] == sp(x)
  }

  ghost predicate SpeltPlan(sc: Scope, sp: Spelling, plan: Plan) {
    forall y :: y in plan ==> Spelt(sc, sp, plan[y])
  }

  /** Of modes that are not parameter modes, changes never lose whose masks are always spelled alike and whose users are
      always named alike; then additions wait for exactly what the server lacks and removals for exactly what it has. */
  lemma NeverLoses(sc: Scope, sp: Spelling, server: Board, local: Board, plan: Plan, c: Change)
    requires Plain(server) && SpeltBoard(sp, server) && SpeltPlan(sc, sp, plan) && Spelt(sc, sp, c)
    requires Kept(sc, server, plan) && Guarded(sc, local, c) && !c.mode.kind.Param?
    ensures !Loses(sc, server, plan, c) && SpeltPlan(sc, sp, Stacked(plan, c))
  {
    LosesByKind(sc, server, local, plan, c);
    if Loses(sc, server, plan, c) {
      var y :| InTheWay(sc, server, plan, c, y);
      assert At(plan[y]) == y && plan[y].mode == c.mode && Spelt(sc, sp, plan[y]);
      RemovalIsThere(sc, sp, server, plan, plan[y]);
    }
  }

  /** Under one spelling what is to be removed is there. */
  lemma RemovalIsThere(sc: Scope, sp: Spelling, server: Board, plan: Plan, c: Change)
    requires SpeltBoard(sp, server) && SpeltPlan(sc, sp, plan) && Kept(sc, server, plan)
    requires At(c) in plan && plan[At(c)] == c && !c.add && !c.mode.kind.Param? && !Nowhere(Place(sc, c))
    ensures var x := Place(sc, c);
      x in server && (c.mode.kind.List? ==> server[x] == c.value)
  {
    var x := Place(sc, c);
    forall y | y in PendingAt(sc, plan, x, true)
      ensures y == At(c)
    {
      assert At(plan[y]) == y && plan[y].mode == c.mode;
      if Many(c.mode.kind) {
        assert Spelt(sc, sp, plan[y]) && Spelt(sc, sp, c);
      } else {
        OneSlot(sc, server, plan, c, true);
      }
    }
    assert PendingAt(sc, plan, x, true) == {};
    assert Spelt(sc, sp, c);
  }

  /** Under one spelling the invariant is the plain one. */
  lemma StrictlyNeeded(sc: Scope, sp: Spelling, server: Board, plan: Plan)
    requires SpeltBoard(sp, server) && SpeltPlan(sc, sp, plan) && Kept(sc, server, plan)
    ensures forall y :: y in plan && !y.0.kind.Param? && !Nowhere(Place(sc, plan[y])) ==> (plan[y].add <==> Place(sc, plan[y]) !in server)
  {
    forall y | y in plan && !y.0.kind.Param? && !Nowhere(Place(sc, plan[y])) && !plan[y].add
      ensures Place(sc, plan[y]) in server
    {
      assert At(plan[y]) == y;
      RemovalIsThere(sc, sp, server, plan, plan[y]);
    }
  }

  /** A call about a mode without a parameter of its own, its mask spelled, or its user named, like all others. */
  ghost predicate SafeCall(sc: Scope, sp: Spelling, call: Call) {
    !call.mode.kind.Param? &&
    match call
    case SetCall(m, v) => Spelt(sc, sp, Change(m, true, Checked(sc.net, m, v)))
    case RemoveCall(m, v) => Spelt(sc, sp, Change(m, false, v))
  }

  lemma SafeIsSpelt(sc: Scope, sp: Spelling, s: State, call: Call)
    requires SafeCall(sc, sp, call)
    ensures Spelt(sc, sp, ChangeOf(sc.net, s, call)) && !ChangeOf(sc.net, s, call).mode.kind.Param?
  {
  }

  lemma {:induction false} SafeRun(sc: Scope, sp: Spelling, server: Board, d: Desk, calls: seq<Call>)
    requires Plain(server) && SpeltBoard(sp, server) && SpeltPlan(sc, sp, d.plan) && Together(sc, server, d)
    requires forall i :: 0 <= i < |calls| ==> GoodCall(sc, calls[i]) && SafeCall(sc, sp, calls[i])
    ensures LosesNothing(sc, server, d, calls) && SpeltPlan(sc, sp, Run(sc.net, d, calls).plan)
    decreases |calls|
  {
    hide Plain, SpeltBoard, SpeltPlan, GoodCall, Loses, Tidy, BoardOf, Overlay, GoodPlan, Kept, Internal, Guarded, Spelt;
    if calls != [] {
      var call := calls[0];
      DoExact(sc, server, d, call);
      if Passes(sc.net, d.state, call) {
        CallIsChange(sc, d.state, call);
        SafeIsSpelt(sc, sp, d.state, call);
        NeverLoses(sc, sp, server, BoardOf(d.state), d.plan, ChangeOf(sc.net, d.state, call));
      }
      hide Together, Do, SafeCall;
      SafeRun(sc, sp, server, Do(sc.net, d, call), calls[1..]);
    }
  }

  /** After any sequence of calls about modes without parameters, masks spelled and users named alike: local = (server +
      AddModes) - DelModes, AddModes disjoint from the server and DelModes part of it. */
  lemma RunStaysInSync(sc: Scope, sp: Spelling, server: Board, d: Desk, calls: seq<Call>)
    requires Plain(server) && SpeltBoard(sp, server) && SpeltPlan(sc, sp, d.plan) && Together(sc, server, d)
    requires forall i :: 0 <= i < |calls| ==> GoodCall(sc, calls[i]) && SafeCall(sc, sp, calls[i])
    ensures var r := Run(sc.net, d, calls);
      && Together(sc, server, r) && SpeltPlan(sc, sp, r.plan)
      && forall y :: y in r.plan && !y.0.kind.Param? && !Nowhere(Place(sc, r.plan[y])) ==>
           (r.plan[y].add <==> Place(sc, r.plan[y]) !in server)
  {
    hide Plain, SpeltBoard, SpeltPlan, GoodCall, SafeCall, Tidy, BoardOf, Overlay, GoodPlan, Kept;
    SafeRun(sc, sp, server, d, calls);
    RunExact(sc, server, d, calls);
    StrictlyNeeded(sc, sp, server, Run(sc.net, d, calls).plan);
  }

  // ---------- runs that lose ----------

  /** A parameter mode removed and set again to another value before anything is sent. */
  lemma KeyChangeIsLost(sc: Scope, k: Mode, server: Board)
    requires sc.members == {} && Known(sc, k) && k.kind == Param(false) && sc.net.validParam(k, "new") == Some("new") && server == map[(k, "") := "old"]
    ensures var d := Desk(State(map[(k, "") := "old"], map[]), map[]);
      var d' := Run(sc.net, d, [RemoveCall(k, ""), SetCall(k, "new")]);
      Together(sc, server, d) && d'.plan == map[] && BoardOf(d'.state) == map[(k, "") := "new"] && !InSync(sc, server, d')
  {
    var d := Desk(State(map[(k, "") := "old"], map[]), map[]);
    hide Run, Overlay, Kept, GoodPlan, BoardOf, InSync;
    KeyChangeRun(sc, k);
    JustModes(server);
    CleanStart(sc, State(server, map[]));
    JustModes(map[(k, "") := "new"]);
    NothingPending(sc, server);
    assert !InSync(sc, server, Desk(State(map[(k, "") := "new"], map[]), map[])) by {
      InSyncIs(sc, server, Desk(State(map[(k, "") := "new"], map[]), map[]));
    }
  }

  lemma InSyncIs(sc: Scope, server: Board, d: Desk)
    ensures InSync(sc, server, d) <==> BoardOf(d.state) == Overlay(sc, server, d.plan)
  {
  }

  lemma JustModes(modes: map<Slot, string>)
    ensures BoardOf(State(modes, map[])) == modes
  {
    assert Statuses(State(modes, map[])) == {};
  }

  /** With nothing pending and the same on both sides all is well. */
  lemma CleanStart(sc: Scope, s: State)
    requires Tidy(sc, s)
    ensures Together(sc, BoardOf(s), Desk(s, map[]))
  {
    NothingPending(sc, BoardOf(s));
    hide Overlay, Kept, BoardOf, Tidy;
  }

  lemma KeyChangeRun(sc: Scope, k: Mode)
    requires k.kind == Param(false) && sc.net.validParam(k, "new") == Some("new")
    ensures Run(sc.net, Desk(State(map[(k, "") := "old"], map[]), map[]), [RemoveCall(k, ""), SetCall(k, "new")])
      == Desk(State(map[(k, "") := "new"], map[]), map[])
  {
    var d := Desk(State(map[(k, "") := "old"], map[]), map[]);
    var r, t := RemoveCall(k, ""), SetCall(k, "new");
    assert (k, "") in d.state.modes && (k, "").0 == k;
    var d1 := Do(sc.net, d, r);
    assert d1 == Desk(State(map[], map[]), map[(k, "") := Change(k, false, "old")]);
    assert Do(sc.net, d1, t) == Desk(State(map[(k, "") := "new"], map[]), map[]);
    TwoCalls(sc, d, r, t);
  }

  lemma TwoCalls(sc: Scope, d: Desk, a: Call, b: Call)
    ensures Run(sc.net, d, [a, b]) == Do(sc.net, Do(sc.net, d, a), b)
  {
    hide Do;
    assert [a, b][1..] == [b] && [b][1..] == [];
    assert Run(sc.net, Do(sc.net, d, a), [b]) == Run(sc.net, Do(sc.net, Do(sc.net, d, a), b), []);
  }

  lemma NothingPending(sc: Scope, server: Board)
    ensures Overlay(sc, server, map[]) == server && Kept(sc, server, map[]) && GoodPlan(sc, map[])
  {
    var plan: Plan := map[];
    forall x
      ensures Look(Overlay(sc, server, plan), x) == Look(server, x)
    {
      OverlayCell(sc, server, plan, x);
      assert PendingAt(sc, plan, x, true) == {} && PendingAt(sc, plan, x, false) == {};
    }
    SameBoard(Overlay(sc, server, plan), server);
  }

  /** An addition under a removal of the same place in another spelling is sent first and does nothing, as the place is
      taken; then the place is cleared. */
  lemma ClearedLast(sc: Scope, server: Board, minus: Change, plus: Change)
    requires Many(plus.mode.kind) && !minus.add && plus.add && At(minus) != At(plus)
    requires Place(sc, minus) == Place(sc, plus) && !Nowhere(Place(sc, plus)) && Place(sc, plus) in server
    ensures AppliedAll(sc, server, [plus, minus]) == server - {Place(sc, plus)}
    ensures Place(sc, plus) !in Overlay(sc, server, map[At(minus) := minus, At(plus) := plus])
  {
    hide Place, At, Worth;
    assert [plus, minus][1..] == [minus] && [minus][1..] == [];
    assert AppliedAll(sc, server, [minus]) == AppliedAll(sc, Applied(sc, server, minus), []);
    var plan := map[At(minus) := minus, At(plus) := plus];
    OverlayCell(sc, server, plan, Place(sc, plus));
    hide Overlay, AppliedAll;
    assert At(minus) in PendingAt(sc, plan, Place(sc, plus), false);
  }

  /** A mask removed and set again in another spelling: services believe in a ban that the server does not hold. */
  lemma RespelledMaskIsLost(sc: Scope, b: Mode, server: Board)
    requires sc.members == {} && Known(sc, b) && b.kind == List && server == map[(b, "foo") := "foo"]
    requires sc.net.fold("foo") == "foo" && sc.net.fold("FOO") == "foo" && sc.net.validMask(b, "FOO") == Some("FOO")
    ensures var d := Desk(State(map[(b, "foo") := "foo"], map[]), map[]);
      var d' := Run(sc.net, d, [RemoveCall(b, "foo"), SetCall(b, "FOO")]);
      && Together(sc, server, d)
      && d'.plan == map[(b, "foo") := Change(b, false, "foo"), (b, "FOO") := Change(b, true, "FOO")]
      && BoardOf(d'.state) == map[(b, "foo") := "FOO"]
      && AppliedAll(sc, server, [Change(b, true, "FOO"), Change(b, false, "foo")]) == map[]
      && !InSync(sc, server, d')
  {
    ClearedLast(sc, server, Change(b, false, "foo"), Change(b, true, "FOO"));
    assert server - {(b, "foo")} == map[];
    hide Overlay, Kept, GoodPlan, BoardOf, AppliedAll, InSync;
    RespelledRun(sc, b);
    JustModes(server);
    CleanStart(sc, State(server, map[]));
    JustModes(map[(b, "foo") := "FOO"]);
    var plan := map[(b, "foo") := Change(b, false, "foo"), (b, "FOO") := Change(b, true, "FOO")];
    InSyncIs(sc, server, Desk(State(map[(b, "foo") := "FOO"], map[]), plan));
    hide Run;
  }

  lemma RespelledRun(sc: Scope, b: Mode)
    requires b.kind == List && sc.net.fold("foo") == "foo" && sc.net.fold("FOO") == "foo" && sc.net.validMask(b, "FOO") == Some("FOO")
    ensures Run(sc.net, Desk(State(map[(b, "foo") := "foo"], map[]), map[]), [RemoveCall(b, "foo"), SetCall(b, "FOO")])
      == Desk(State(map[(b, "foo") := "FOO"], map[]), map[(b, "foo") := Change(b, false, "foo"), (b, "FOO") := Change(b, true, "FOO")])
  {
    var d := Desk(State(map[(b, "foo") := "foo"], map[]), map[]);
    var r, t := RemoveCall(b, "foo"), SetCall(b, "FOO");
    var d1 := Do(sc.net, d, r);
    assert ChangeOf(sc.net, d.state, r) == Change(b, false, "foo") && Passes(sc.net, d.state, r);
    assert d1.state == State(map[], map[]);
    assert d1.plan == map[(b, "foo") := Change(b, false, "foo")];
    var d2 := Do(sc.net, d1, t);
    assert d2.state == State(map[(b, "foo") := "FOO"], map[]);
    assert d2.plan == map[(b, "foo") := Change(b, false, "foo"), (b, "FOO") := Change(b, true, "FOO")];
    TwoCalls(sc, d, r, t);
  }

  /** A status taken by id and given again by nick, as a mode lock does: services believe a user opped whom the server
      has deopped. */
  lemma RenamedUserIsLost(sc: Scope, o: Mode, server: Board)
    requires sc.members == {"0AA"} && Known(sc, o) && o.kind == Status && server == map[(o, "0AA") := "0AA"]
    requires sc.net.find("0AA") == Some("0AA") && sc.net.find("Adam") == Some("0AA") && sc.net.findBot("0AA") == None
    ensures var d := Desk(State(map[], map["0AA" := {o}]), map[]);
      var d' := Run(sc.net, d, [RemoveCall(o, "0AA"), SetCall(o, "Adam")]);
      && Together(sc, server, d)
      && d'.plan == map[(o, "0AA") := Change(o, false, "0AA"), (o, "Adam") := Change(o, true, "Adam")]
      && BoardOf(d'.state) == server
      && AppliedAll(sc, server, [Change(o, true, "Adam"), Change(o, false, "0AA")]) == map[]
      && !InSync(sc, server, d')
  {
    ClearedLast(sc, server, Change(o, false, "0AA"), Change(o, true, "Adam"));
    assert server - {(o, "0AA")} == map[];
    hide Overlay, Kept, GoodPlan, BoardOf, AppliedAll, InSync;
    var s := State(map[], map["0AA" := {o}]);
    RenamedRun(sc, o);
    OneStatus(o);
    CleanStart(sc, s);
    var plan := map[(o, "0AA") := Change(o, false, "0AA"), (o, "Adam") := Change(o, true, "Adam")];
    InSyncIs(sc, server, Desk(s, plan));
    hide Run;
  }

  lemma OneStatus(o: Mode)
    ensures BoardOf(State(map[], map["0AA" := {o}])) == map[(o, "0AA") := "0AA"]
  {
    assert Statuses(State(map[], map["0AA" := {o}])) == {(o, "0AA")};
  }

  lemma RenamedRun(sc: Scope, o: Mode)
    requires o.kind == Status && sc.net.find("0AA") == Some("0AA") && sc.net.find("Adam") == Some("0AA") && sc.net.findBot("0AA") == None
    ensures Run(sc.net, Desk(State(map[], map["0AA" := {o}]), map[]), [RemoveCall(o, "0AA"), SetCall(o, "Adam")])
      == Desk(State(map[], map["0AA" := {o}]), map[(o, "0AA") := Change(o, false, "0AA"), (o, "Adam") := Change(o, true, "Adam")])
  {
    var d := Desk(State(map[], map["0AA" := {o}]), map[]);
    var r, t := RemoveCall(o, "0AA"), SetCall(o, "Adam");
    var d1 := Do(sc.net, d, r);
    assert ChangeOf(sc.net, d.state, r) == Change(o, false, "0AA") && Passes(sc.net, d.state, r);
    assert {o} - {o} == {} && {} + {o} == {o};
    assert d1.state.users == map["0AA" := {}];
    assert d1.plan == map[(o, "0AA") := Change(o, false, "0AA")];
    var d2 := Do(sc.net, d1, t);
    assert d2.state.users == map["0AA" := {o}];
    assert d2.plan == map[(o, "0AA") := Change(o, false, "0AA"), (o, "Adam") := Change(o, true, "Adam")];
    TwoCalls(sc, d, r, t);
  }

  /** A status for a user who is not on the channel is queued and sent, and changes neither side. */
  lemma StrangersChangeNothing(sc: Scope, server: Board, local: Board, plan: Plan, c: Change)
    requires local == Overlay(sc, server, plan) && Kept(sc, server, plan) && Guarded(sc, local, c) && Nowhere(Place(sc, c))
    ensures Applied(sc, local, c) == local == Overlay(sc, server, Stacked(plan, c)) && Kept(sc, server, Stacked(plan, c))
  {
    StepExact(sc, server, local, plan, c);
    StepKeeps(sc, server, local, plan, c);
  }

  // ---------- resets ----------

  /** After a reset all modes and the statuses of remote users are gone; and if the server clears the channel as well,
      what is pending will give our users exactly the statuses that services believe they have. */
  lemma ResetAsksAgain(sc: Scope, server: Board, d: Desk, u: string, m: Mode)
    requires Together(sc, server, d) && Real(sc.net, d.state.users) && u in d.state.users && m.kind.Status?
    ensures var r := ResetDesk(sc.net, d);
      && r.state.modes == map[] && r.state.users.Keys == d.state.users.Keys
      && (m in r.state.users[u] <==> sc.net.mine(u) && m in d.state.users[u])
      && (sc.net.mine(u) ==> ((m, u) in Overlay(sc, map[], r.plan) <==> m in r.state.users[u]))
  {
    var r, x := ResetDesk(sc.net, d), (m, u);
    if sc.net.mine(u) {
      OverlayAt(sc, server, d.plan, x);
      OverlayAt(sc, map[], r.plan, x);
      BoardHas(d.state, x);
      assert x in BoardOf(d.state) <==> m in d.state.users[u];
      hide Overlay, BoardOf, GoodPlan, Needed;
      PendingAfterReset(sc, d, x);
    }
  }

  /** At the place of a status of ours a reset leaves the pending changes, and adds one for a status that is held. */
  lemma PendingAfterReset(sc: Scope, d: Desk, x: Slot)
    requires Tidy(sc, d.state) && Real(sc.net, d.state.users) && Single(sc, d.plan)
    requires x.0.kind.Status? && x.1 in d.state.users && sc.net.mine(x.1)
    requires x.0 in d.state.users[x.1] ==> PendingAt(sc, d.plan, x, false) == {}
    ensures var r := ResetDesk(sc.net, d);
      if x.0 in d.state.users[x.1] then PendingAt(sc, r.plan, x, false) == {} && x in PendingAt(sc, r.plan, x, true)
      else PendingAt(sc, r.plan, x, false) == PendingAt(sc, d.plan, x, false) && PendingAt(sc, r.plan, x, true) == PendingAt(sc, d.plan, x, true)
  {
    var r, own := ResetDesk(sc.net, d), OwnStatuses(sc.net, d.state.users, d.state.users.Keys);
    assert x in own <==> x.0 in d.state.users[x.1];
    forall y | y in own
      ensures Place(sc, Change(y.0, true, y.1)) == y
    {
    }
    if x in own {
      assert x in d.plan ==> Place(sc, d.plan[x]) == x;
      assert x in d.plan && !d.plan[x].add ==> x in PendingAt(sc, d.plan, x, false);
      assert x in r.plan;
      assert PendingAt(sc, r.plan, x, false) <= PendingAt(sc, d.plan, x, false);
    } else {
      forall y, add | y in own
        ensures y !in PendingAt(sc, r.plan, x, add) && y !in PendingAt(sc, d.plan, x, add)
      {
      }
    }
  }

  // ---------- sending ----------

  lemma {:induction false} InternalAllJoins(net: Services, s: State, a: seq<Change>, b: seq<Change>)
    ensures InternalAll(net, s, a + b) == InternalAll(net, InternalAll(net, s, a), b)
    decreases |a|
  {
    hide Internal;
    if a == [] {
      assert a + b == b;
    } else {
      assert (a + b)[0] == a[0] && (a + b)[1..] == a[1..] + b;
      InternalAllJoins(net, Internal(net, s, a[0]), a[1..], b);
    }
  }

  /** ProcessModes for one channel: what is pending becomes lines, and nothing is pending any more. */
  method Flush(c: Channel, maxLine: nat, maxModes: nat) returns (lines: seq<Line>, change: seq<Change>, ghost groups: seq<seq<Change>>)
    requires c.stacker.Valid()
    modifies c.stacker
    ensures c.stacker.Valid() && c.stacker.Pending() == map[]
    ensures Apart(change) && Ordered(change) && AddsFirst(change) && PlanOf(change) == old(c.stacker.Pending())
    ensures Batches(maxLine, maxModes, groups, lines) && Flatten(groups) == change
  {
    change := BuildModeMap(c.stacker);
    lines, groups := BuildModeChange(maxLine, maxModes, change);
    c.stacker.Clear();
  }

  /** The server, which reads lines as services do, reads these in order. */
  method Deliver(server: Channel, lines: seq<Line>)
    modifies server`modes, server`users
    ensures server.St() == InternalAll(server.net, old(server.St()), ReadAll(server.net.table, lines))
  {
    hide InternalAll, Read;
    assert lines[0..] == lines;
    for i := 0 to |lines|
      invariant InternalAll(server.net, old(server.St()), ReadAll(server.net.table, lines)) ==
        InternalAll(server.net, server.St(), ReadAll(server.net.table, lines[i..]))
    {
      assert lines[i..][0] == lines[i] && lines[i..][1..] == lines[i + 1..];
      InternalAllJoins(server.net, server.St(), Read(server.net.table, lines[i]), ReadAll(server.net.table, lines[i + 1..]));
      server.ReadLine(lines[i]);
    }
    assert lines[|lines|..] == [];
    assert InternalAll(server.net, server.St(), []) == server.St() by {
      NothingRead(server.net, server.St());
    }
  }

  lemma NothingRead(net: Services, s: State)
    ensures InternalAll(net, s, []) == s
  {
  }

  /** The lines of a good plan are read back as its changes, and bring the board where the plan leads. */
  lemma LinesBringThere(sc: Scope, s: State, plan: Plan, change: seq<Change>, maxLine: nat, maxModes: nat, groups: seq<seq<Change>>, lines: seq<Line>)
    requires IsTable(sc.net.table) && Tidy(sc, s) && GoodPlan(sc, plan) && Single(sc, plan)
    requires Apart(change) && AddsFirst(change) && PlanOf(change) == plan
    requires Batches(maxLine, maxModes, groups, lines) && Flatten(groups) == change
    ensures BoardOf(InternalAll(sc.net, s, ReadAll(sc.net.table, lines))) == Overlay(sc, BoardOf(s), plan)
    ensures Tidy(sc, InternalAll(sc.net, s, ReadAll(sc.net.table, lines)))
  {
    forall i | 0 <= i < |change|
      ensures GoodChange(sc, change[i])
    {
      PlanAt(change, i);
    }
    assert Sendable(sc.net.table, change);
    assert forall i :: 0 <= i < |change| ==> Proper(sc, change[i]);
    hide Batches, Flatten, Sendable, Proper, Tidy, BoardOf, Apart, AddsFirst, PlanOf, GoodChange, ReadAll, Overlay, Single;
    LinesReadBack(sc.net.table, maxLine, maxModes, groups, lines);
    InternalAllIsApplied(sc, s, change);
    AppliedAllIsOverlay(sc, BoardOf(s), change);
  }

  /** End to end: once the pending changes are sent, the server holds exactly what services believe. */
  method Send(services: Channel, server: Channel, maxLine: nat, maxModes: nat)
    requires services != server && services.net == server.net && IsTable(services.net.table) && services.stacker.Valid()
    requires Tidy(services.Here(), server.St())
    requires Together(services.Here(), BoardOf(server.St()), services.AtDesk())
    modifies services.stacker, server`modes, server`users
    ensures services.St() == old(services.St()) && services.stacker.Valid() && services.stacker.Pending() == map[]
    ensures server.St() == services.St()
    ensures Together(services.Here(), BoardOf(server.St()), services.AtDesk())
  {
    hide Tidy, BoardOf, Batches, Flatten, PlanOf, Apart, AddsFirst, Ordered, InternalAll, ReadAll, Overlay, IsTable, Single, Needed;
    ghost var plan, before := services.stacker.Pending(), server.St();
    assert GoodPlan(services.Here(), plan) && Single(services.Here(), plan);
    var lines, change, groups := Flush(services, maxLine, maxModes);
    LinesBringThere(services.Here(), before, plan, change, maxLine, maxModes, groups, lines);
    Deliver(server, lines);
    BoardTells(services.Here(), server.St(), services.St());
    NothingPending(services.Here(), BoardOf(server.St()));
  }

  // ---------- whole sessions ----------

  method Perform(c: Channel, calls: seq<Call>)
    requires c.stacker.Valid()
    modifies c`modes, c`users, c.stacker
    ensures c.stacker.Valid() && c.AtDesk() == Run(c.net, old(c.AtDesk()), calls)
  {
    hide Do;
    assert calls[0..] == calls;
    for i := 0 to |calls|
      invariant c.stacker.Valid()
      invariant Run(c.net, old(c.AtDesk()), calls) == Run(c.net, c.AtDesk(), calls[i..])
    {
      assert calls[i..][0] == calls[i] && calls[i..][1..] == calls[i + 1..];
      match calls[i]
      case SetCall(m, v) => c.SetMode(m, v);
      case RemoveCall(m, v) => c.RemoveMode(m, v);
    }
    assert calls[|calls|..] == [];
  }

  /** A tidy channel holds what its modes take. */
  lemma TidyIsPlain(sc: Scope, s: State)
    requires Tidy(sc, s)
    ensures Plain(BoardOf(s))
  {
  }

  lemma SpeltStays(sc: Scope, sp: Spelling, server: Board, plan: Plan)
    requires SpeltBoard(sp, server) && SpeltPlan(sc, sp, plan)
    ensures SpeltBoard(sp, Overlay(sc, server, plan))
  {
    var o := Overlay(sc, server, plan);
    forall x | x in o && x.0.kind.List?
      ensures o[x] == sp(x)
    {
      OverlayAt(sc, server, plan, x);
    }
  }

  /** Rounds of calls, each followed by a flush: if no call concerns a parameter mode and every mask is spelled one way,
      the server ends every round with exactly the channel that services have. */
  method Session(services: Channel, server: Channel, sp: Spelling, rounds: seq<seq<Call>>, maxLine: nat, maxModes: nat)
    requires services != server && services.net == server.net && IsTable(services.net.table) && services.stacker.Valid()
    requires Tidy(services.Here(), server.St())
    requires Together(services.Here(), BoardOf(server.St()), services.AtDesk())
    requires SpeltBoard(sp, BoardOf(server.St())) && SpeltPlan(services.Here(), sp, services.stacker.Pending())
    requires forall i, j :: 0 <= i < |rounds| && 0 <= j < |rounds[i]| ==>
      GoodCall(services.Here(), rounds[i][j]) && SafeCall(services.Here(), sp, rounds[i][j])
    modifies services`modes, services`users, services.stacker, server`modes, server`users
    ensures services.stacker.Valid() && Together(services.Here(), BoardOf(server.St()), services.AtDesk())
    ensures rounds != [] ==> server.St() == services.St()
  {
    hide Tidy, BoardOf, Overlay, IsTable, Together, SpeltBoard, SpeltPlan, GoodCall, SafeCall, Run, Plain;
    ghost var sc := services.Here();
    for i := 0 to |rounds|
      invariant services.stacker.Valid() && services.Here() == sc
      invariant Tidy(sc, server.St()) && Together(sc, BoardOf(server.St()), services.AtDesk())
      invariant SpeltBoard(sp, BoardOf(server.St())) && SpeltPlan(sc, sp, services.stacker.Pending())
      invariant i > 0 ==> server.St() == services.St()
    {
      assert sc.net == services.net;
      TidyIsPlain(sc, server.St());
      RunStaysInSync(sc, sp, BoardOf(server.St()), services.AtDesk(), rounds[i]);
      Perform(services, rounds[i]);
      TogetherTells(sc, sp, BoardOf(server.St()), services.AtDesk());
      Send(services, server, maxLine, maxModes);
      NothingSpelt(sc, sp);
    }
  }

  lemma TogetherTells(sc: Scope, sp: Spelling, server: Board, d: Desk)
    requires Together(sc, server, d) && SpeltBoard(sp, server) && SpeltPlan(sc, sp, d.plan)
    ensures Tidy(sc, d.state) && SpeltBoard(sp, BoardOf(d.state)) && d.state.users.Keys == sc.members
  {
    SpeltStays(sc, sp, server, d.plan);
  }

  lemma NothingSpelt(sc: Scope, sp: Spelling)
    ensures SpeltPlan(sc, sp, map[])
  {
  }
}
