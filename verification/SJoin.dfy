/** The timestamp merge of src/messages.cpp, Message::Join::SJoin, for channels without hooks. */
module SJoin {
  import opened Wrappers
  import opened Modes
  import opened ModeLines
  import opened ChannelStates
  import opened Channels

  datatype Joiner = Joiner(user: string, status: set<Mode>)

  datatype Message = Message(ts: int, line: Line, users: seq<Joiner>)

  datatype Chan = Chan(created: int, state: State)

  /** Those who are not on the channel yet join it, with their status or without. */
  function Joined(s: State, keep: bool, users: seq<Joiner>): State
    decreases |users|
  {
    if users == [] then s
    else if users[0].user in s.users then Joined(s, keep, users[1..])
    else Joined(s.(users := s.users[users[0].user := if keep then users[0].status else {}]), keep, users[1..])
  }

  /** The channel once its modes have been heard; of two timestamps the older one wins. */
  ghost function Heard(net: Services, now: int, old_: Option<Chan>, m: Message): Chan {
    match old_
    case None => Chan(if m.ts != 0 then m.ts else now, InternalAll(net, State(map[], map[]), Read(net.table, m.line)))
    case Some(c) =>
      if m.ts > c.created then c
      else if m.ts != 0 && m.ts < c.created then
        Chan(m.ts, InternalAll(net, State(map[], Cleared(net, c.state.users, {})), Read(net.table, m.line)))
      else Chan(c.created, InternalAll(net, c.state, Read(net.table, m.line)))
  }

  /** The channel after a message. */
  ghost function Merge(net: Services, now: int, old_: Option<Chan>, m: Message): Chan {
    var c := Heard(net, now, old_, m);
    Chan(c.created, Joined(c.state, m.ts <= c.created, m.users))
  }

  /** The users of a message exist, and their status is made of status modes. */
  ghost predicate RealUsers(net: Services, users: seq<Joiner>) {
    forall i :: 0 <= i < |users| ==>
      net.find(users[i].user) == Some(users[i].user) && users[i].user != "" && forall m :: m in users[i].status ==> m.kind.Status?
  }

  /** What waits to be sent after a message: an older one asks again for the status of users of ours. */
  ghost function PlanAfter(net: Services, created: int, d: Desk, m: Message): Plan {
    if m.ts != 0 && m.ts < created then ResetDesk(net, d).plan else d.plan
  }

  method SJoin(net: Services, c: Channel?, now: int, m: Message, sourceSynced: bool) returns (r: Channel)
    requires c != null ==> c.net == net && c.stacker.Valid() && Real(net, c.users)
    requires m.ts >= 0 && now >= 0 && (c == null || c.created >= 0) && RealUsers(net, m.users)
    modifies if c == null then {} else {c, c.stacker}
    ensures if c == null then fresh(r) && fresh(r.stacker) else r == c
    ensures r.net == net && r.stacker.Valid() && Real(net, r.users) && r.created >= 0
    ensures r.syncing <==> !sourceSynced && (c == null || old(c.syncing))
    ensures c != null ==> Chan(r.created, r.St()) == Merge(net, now, Some(Chan(old(c.created), old(c.St()))), m)
    ensures c != null ==> r.stacker.Pending() == PlanAfter(net, old(c.created), old(c.AtDesk()), m)
    ensures c == null ==> Chan(r.created, r.St()) == Merge(net, now, None, m) && r.stacker.Pending() == map[]
  {
    hide InternalAll, Read, Joined, Cleared, ResetDesk, Real, RealUsers;
    if c != null {
      ResetKeeps(net, c.AtDesk());
    }
    var keepTheirModes;
    r, keepTheirModes := Find(net, c, now, m.ts);
    Hear(r, m, keepTheirModes);
    if r.syncing && sourceSynced {
      r.syncing := false;
    }
  }

  /** The channel before the message is heard, and whether its modes are. */
  method Find(net: Services, c: Channel?, now: int, ts: int) returns (r: Channel, keepTheirModes: bool)
    requires c != null ==> c.net == net && c.stacker.Valid() && Real(net, c.users)
    modifies if c == null then {} else {c, c.stacker}
    ensures if c == null then fresh(r) && fresh(r.stacker) else r == c
    ensures r.net == net && r.stacker.Valid() && Real(net, r.users)
    ensures r.syncing <==> c == null || old(c.syncing)
    ensures c == null ==> keepTheirModes && r.AtDesk() == Desk(State(map[], map[]), map[]) && r.created == if ts != 0 then ts else now
    ensures c != null ==>
      && (keepTheirModes <==> ts == 0 || ts <= old(c.created))
      && r.created == (if ts != 0 && ts < old(c.created) then ts else old(c.created))
      && r.AtDesk() == if ts != 0 && ts < old(c.created) then ResetDesk(net, old(c.AtDesk())) else old(c.AtDesk())
  {
    hide Cleared, ResetDesk, Real;
    keepTheirModes := true;
    if c == null {
      r := new Channel(net, if ts != 0 then ts else now);
      r.syncing := true;
      NobodyReal(net);
    } else {
      r := c;
      if ts == 0 {
      } else if r.created > ts {
        r.created := ts;
        ResetKeeps(net, r.AtDesk());
        r.Reset();
      } else if ts > r.created {
        keepTheirModes := false;
      }
    }
  }

  /** The modes of the message, if they are heard, and its users. */
  method Hear(r: Channel, m: Message, keepTheirModes: bool)
    requires r.stacker.Valid() && Real(r.net, r.users) && RealUsers(r.net, m.users)
    requires keepTheirModes ==> m.ts == 0 || m.ts == r.created
    modifies r, r.stacker
    ensures r.stacker.Valid() && Real(r.net, r.users) && r.created == old(r.created) && r.syncing == old(r.syncing)
    ensures r.stacker.Pending() == old(r.stacker.Pending())
    ensures r.St() == Joined(if keepTheirModes then InternalAll(r.net, old(r.St()), Read(r.net.table, m.line)) else old(r.St()),
      m.ts <= r.created, m.users)
  {
    hide InternalAll, Read, Joined, ResetDesk, Real, RealUsers;
    NothingToRead(r.net, m.line, r.St());
    StaysReal(r.net, r.St(), Read(r.net.table, m.line));
    if keepTheirModes && m.line.modes != "" {
      r.SetModesInternal(m.line, m.ts);
    }
    JoinersAreReal(r.net, r.St(), m.ts <= r.created, m.users);
    Join(r, m.ts, m.users);
  }

  lemma {:induction false} StaysReal(net: Services, s: State, cs: seq<Change>)
    requires Real(net, s.users)
    ensures Real(net, InternalAll(net, s, cs).users)
    decreases |cs|
  {
    if cs != [] {
      StaysReal(net, Internal(net, s, cs[0]), cs[1..]);
    }
  }

  lemma {:induction false} JoinersAreReal(net: Services, s: State, keep: bool, users: seq<Joiner>)
    requires Real(net, s.users) && RealUsers(net, users)
    ensures Real(net, Joined(s, keep, users).users)
    decreases |users|
  {
    if users != [] {
      var s' := s.(users := s.users[users[0].user := if keep then users[0].status else {}]);
      assert RealUsers(net, users[1..]);
      assert Real(net, s'.users);
      if users[0].user in s.users {
        JoinersAreReal(net, s, keep, users[1..]);
      } else {
        JoinersAreReal(net, s', keep, users[1..]);
      }
    }
  }

  // ---------- any message ----------

  predicate Lists(users: seq<Joiner>, u: string) {
    exists i :: 0 <= i < |users| && users[i].user == u
  }

  /** The user was not listed before. */
  predicate FirstListed(users: seq<Joiner>, i: nat) {
    i < |users| && forall j :: 0 <= j < i ==> users[j].user != users[i].user
  }

  ghost predicate JoinOutcome(s: State, keep: bool, users: seq<Joiner>, r: State) {
    && r.modes == s.modes
    && (forall u :: u in r.users <==> u in s.users || Lists(users, u))
    && (forall u :: u in s.users ==> r.users[u] == s.users[u])
    && (forall i: nat :: FirstListed(users, i) && users[i].user !in s.users ==> r.users[users[i].user] == if keep then users[i].status else {})
  }

  /** Whoever is on the channel keeps what he has, listed or not; others join as they are listed first. */
  lemma {:induction false} JoinedExactly(s: State, keep: bool, users: seq<Joiner>)
    ensures JoinOutcome(s, keep, users, Joined(s, keep, users))
    decreases |users|
  {
    if users != [] {
      var first, rest := users[0], users[1..];
      var s' := if first.user in s.users then s else s.(users := s.users[first.user := if keep then first.status else {}]);
      JoinedExactly(s', keep, rest);
      assert Joined(s, keep, users) == Joined(s', keep, rest) && users == [first] + rest;
      JoinOneMore(s, keep, first, rest, s', Joined(s', keep, rest));
    }
  }

  lemma JoinOneMore(s: State, keep: bool, first: Joiner, rest: seq<Joiner>, s': State, r: State)
    requires s' == if first.user in s.users then s else s.(users := s.users[first.user := if keep then first.status else {}])
    requires JoinOutcome(s', keep, rest, r)
    ensures JoinOutcome(s, keep, [first] + rest, r)
  {
    var users := [first] + rest;
    assert users[0] == first && forall i :: 0 <= i < |rest| ==> users[i + 1] == rest[i];
    forall u
      ensures Lists(users, u) <==> u == first.user || Lists(rest, u)
    {
      if Lists(rest, u) {
        var i :| 0 <= i < |rest| && rest[i].user == u;
        assert users[i + 1].user == u;
      }
      if Lists(users, u) && u != first.user {
        var i :| 0 <= i < |users| && users[i].user == u;
        assert rest[i - 1].user == u;
      }
    }
    forall i: nat | FirstListed(users, i) && users[i].user !in s.users
      ensures r.users[users[i].user] == if keep then users[i].status else {}
    {
      if i > 0 {
        assert users[0].user != users[i].user && rest[i - 1] == users[i];
        assert forall j :: 0 <= j < i - 1 ==> rest[j] == users[j + 1];
        assert FirstListed(rest, i - 1);
      }
    }
  }

  /** What a line makes of one status of one member: the last change that names both decides. */
  function LastStatus(net: Services, cs: seq<Change>, m: Mode, u: string): Option<bool>
    decreases |cs|
  {
    if cs == [] then None
    else
      var later := LastStatus(net, cs[1..], m, u);
      if later.Some? || cs[0].mode != m || cs[0].value == "" || net.Target(cs[0]) != Some(u) then later else Some(cs[0].add)
  }

  lemma {:induction false} LineSetsStatus(net: Services, s: State, cs: seq<Change>, m: Mode, u: string)
    requires m.kind.Status?
    ensures u in InternalAll(net, s, cs).users <==> u in s.users
    ensures u in s.users ==>
      (m in InternalAll(net, s, cs).users[u] <==> if LastStatus(net, cs, m, u).Some? then LastStatus(net, cs, m, u).value else m in s.users[u])
    decreases |cs|
  {
    if cs != [] {
      LineSetsStatus(net, Internal(net, s, cs[0]), cs[1..], m, u);
    }
  }

  /** Before the line is read: nothing, or the channel without the statuses that an older message clears. */
  ghost predicate Begins(net: Services, old_: Option<Chan>, m: Message, u: string, o: Mode) {
    old_.Some? && u in old_.value.state.users && o in old_.value.state.users[u] && (m.ts == 0 || m.ts >= old_.value.created || net.mine(u))
  }

  /** Any message, timestamp 0 included, whomever it lists: a member keeps his statuses as the reset and the line leave
      them, listed or not; others join with the status they are first listed with, unless the message is newer. */
  lemma MembersStay(net: Services, now: int, old_: Option<Chan>, m: Message)
    requires m.ts >= 0 && now >= 0 && (old_.Some? ==> old_.value.created >= 0)
    ensures var r := Merge(net, now, old_, m);
      && r.created == (if old_.None? then if m.ts != 0 then m.ts else now
                       else if m.ts == 0 || old_.value.created < m.ts then old_.value.created else m.ts)
      && (forall u :: u in r.state.users <==> (old_.Some? && u in old_.value.state.users) || Lists(m.users, u))
      && (forall u: string, o: Mode :: old_.Some? && u in old_.value.state.users && o.kind.Status? ==>
           (o in r.state.users[u] <==>
             if m.ts > r.created || LastStatus(net, Read(net.table, m.line), o, u).None? then Begins(net, old_, m, u, o)
             else LastStatus(net, Read(net.table, m.line), o, u).value))
      && (forall i: nat :: FirstListed(m.users, i) && (old_.None? || m.users[i].user !in old_.value.state.users) ==>
           r.state.users[m.users[i].user] == if m.ts <= r.created then m.users[i].status else {})
  {
    var h, cs := Heard(net, now, old_, m), Read(net.table, m.line);
    JoinedExactly(h.state, m.ts <= h.created, m.users);
    forall u, o: Mode | o.kind.Status?
      ensures u in h.state.users <==> old_.Some? && u in old_.value.state.users
      ensures u in h.state.users ==> (o in h.state.users[u] <==>
        if m.ts > h.created || LastStatus(net, cs, o, u).None? then Begins(net, old_, m, u, o) else LastStatus(net, cs, o, u).value)
    {
      HeardStatus(net, now, old_, m, o, u);
    }
    AnyStatus();
    hide Heard, Joined, LastStatus, Begins;
  }

  lemma AnyStatus()
    ensures exists o: Mode :: o.kind.Status?
  {
    assert Mode('o', Status, 0).kind.Status?;
  }

  lemma HeardStatus(net: Services, now: int, old_: Option<Chan>, m: Message, o: Mode, u: string)
    requires o.kind.Status?
    ensures var h, cs := Heard(net, now, old_, m), Read(net.table, m.line);
      && (u in h.state.users <==> old_.Some? && u in old_.value.state.users)
      && (u in h.state.users ==> (o in h.state.users[u] <==>
            if m.ts > h.created || LastStatus(net, cs, o, u).None? then Begins(net, old_, m, u, o) else LastStatus(net, cs, o, u).value))
  {
    hide InternalAll, Read, LastStatus;
    var cs := Read(net.table, m.line);
    if old_.None? {
      LineSetsStatus(net, State(map[], map[]), cs, o, u);
    } else {
      LineSetsStatus(net, old_.value.state, cs, o, u);
      LineSetsStatus(net, State(map[], Cleared(net, old_.value.state.users, {})), cs, o, u);
    }
  }

  ghost function ChanOf(c: Channel?): Option<Chan>
    reads if c == null then {} else {c}
  {
    if c == null then None else Some(Chan(c.created, c.St()))
  }

  /** Messages about a channel, there already or not, one after another. */
  method Receive(net: Services, c: Channel?, now: int, msgs: seq<Message>, sourceSynced: bool) returns (r: Channel?)
    requires c != null ==> c.net == net && c.stacker.Valid() && Real(net, c.users) && c.created >= 0
    requires now >= 0 && forall i :: 0 <= i < |msgs| ==> msgs[i].ts >= 0 && RealUsers(net, msgs[i].users)
    modifies if c == null then {} else {c, c.stacker}
    ensures ChanOf(r) == MergeFrom(net, now, old(ChanOf(c)), msgs)
    ensures c != null ==> r == c
  {
    hide Merge, Real, RealUsers;
    r := c;
    for i := 0 to |msgs|
      invariant if c == null then r == null || (fresh(r) && fresh(r.stacker)) else r == c
      invariant r != null ==> r.net == net && r.stacker.Valid() && Real(net, r.users) && r.created >= 0
      invariant ChanOf(r) == MergeFrom(net, now, old(ChanOf(c)), msgs[..i])
    {
      assert msgs[..i + 1][..i] == msgs[..i] && msgs[..i + 1][i] == msgs[i];
      r := SJoin(net, r, now, msgs[i], sourceSynced);
    }
    assert msgs[..|msgs|] == msgs;
  }

  /** The loop over the users of the message. */
  method Join(r: Channel, ts: int, users: seq<Joiner>)
    modifies r`users
    ensures r.St() == Joined(old(r.St()), ts <= r.created, users)
  {
    assert users[0..] == users;
    for i := 0 to |users|
      invariant Joined(old(r.St()), ts <= r.created, users) == Joined(r.St(), ts <= r.created, users[i..])
      invariant r.modes == old(r.modes)
    {
      assert users[i..][0] == users[i] && users[i..][1..] == users[i + 1..];
      var keepTheirModes := ts <= r.created;
      if users[i].user in r.users {
        continue;
      }
      r.JoinUser(users[i].user, if keepTheirModes then Some(users[i].status) else None);
    }
  }

  lemma NobodyReal(net: Services)
    ensures Real(net, map[])
  {
  }

  lemma ResetKeeps(net: Services, d: Desk)
    requires Real(net, d.state.users)
    ensures ResetDesk(net, d).state == State(map[], Cleared(net, d.state.users, {})) && Real(net, Cleared(net, d.state.users, {}))
  {
  }

  lemma NothingToRead(net: Services, line: Line, s: State)
    ensures line.modes == "" ==> InternalAll(net, s, Read(net.table, line)) == s
  {
  }

  // ---------- bursts ----------

  /** A change of a burst: a parameterless mode or a mask, to be added, or anything about a parameter mode. */
  predicate Burstable(c: Change) {
    match c.mode.kind
    case Regular => c.add
    case Param(_) => true
    case List => c.add && c.value != ""
    case Status => false
  }

  ghost predicate Burst(net: Services, m: Message) {
    && m.ts > 0 && m.users != []
    && (forall i :: 0 <= i < |m.users| ==> !net.mine(m.users[i].user))
    && (forall i, j :: 0 <= i < j < |m.users| ==> m.users[i].user != m.users[j].user)
    && AllBurstable(Read(net.table, m.line))
  }

  ghost predicate AllBurstable(cs: seq<Change>) {
    forall i :: 0 <= i < |cs| ==> Burstable(cs[i])
  }

  ghost predicate Brings(m: Message, u: string) {
    exists i :: 0 <= i < |m.users| && m.users[i].user == u
  }

  /** Messages of remote servers that introduce each user once; without users there would be no channel to keep. */
  ghost predicate Bursts(net: Services, msgs: seq<Message>) {
    && (forall m :: m in msgs ==> Burst(net, m))
    && (forall m :: multiset(msgs)[m] <= 1)
    && (forall m, n, u :: m in msgs && n in msgs && Brings(m, u) && Brings(n, u) ==> m == n)
  }

  ghost function MergeFrom(net: Services, now: int, start: Option<Chan>, msgs: seq<Message>): Option<Chan> {
    if msgs == [] then start else Some(Merge(net, now, MergeFrom(net, now, start, msgs[..|msgs| - 1]), msgs[|msgs| - 1]))
  }

  /** A channel that the messages find, which has none of their users yet. */
  ghost predicate Found(start: Chan, msgs: seq<Message>) {
    start.created > 0 && forall m, u :: m in msgs && u in start.state.users ==> !Brings(m, u)
  }

  /** What is to be the same everywhere: timestamp, parameterless modes and folded masks, members and their status. */
  datatype View = View(created: int, keys: set<Slot>, users: map<string, set<Mode>>)

  ghost function KeysOf(s: State): set<Slot> {
    set x | x in s.modes && !x.0.kind.Param?
  }

  ghost function Seen(c: Chan): View {
    View(c.created, KeysOf(c.state), c.state.users)
  }

  ghost function Added(net: Services, cs: seq<Change>): set<Slot> {
    set i | 0 <= i < |cs| && !cs[i].mode.kind.Param? :: Key(net, cs[i].mode, cs[i].value)
  }

  lemma {:induction false} BurstAdds(net: Services, s: State, cs: seq<Change>)
    requires AllBurstable(cs)
    ensures KeysOf(InternalAll(net, s, cs)) == KeysOf(s) + Added(net, cs) && InternalAll(net, s, cs).users == s.users
    decreases |cs|
  {
    if cs != [] {
      var c, rest := cs[0], cs[1..];
      var s' := Internal(net, s, c);
      BurstAdds(net, s', rest);
      OneAdds(net, s, c);
      AddedHead(net, cs);
    }
  }

  lemma OneAdds(net: Services, s: State, c: Change)
    requires Burstable(c)
    ensures Internal(net, s, c).users == s.users
    ensures KeysOf(Internal(net, s, c)) == if c.mode.kind.Param? then KeysOf(s) else KeysOf(s) + {Key(net, c.mode, c.value)}
  {
  }

  lemma AddedHead(net: Services, cs: seq<Change>)
    requires cs != []
    ensures Added(net, cs) == (if cs[0].mode.kind.Param? then {} else {Key(net, cs[0].mode, cs[0].value)}) + Added(net, cs[1..])
  {
    forall x | x in Added(net, cs[1..])
      ensures x in Added(net, cs)
    {
      var i :| 0 <= i < |cs[1..]| && !cs[1..][i].mode.kind.Param? && Key(net, cs[1..][i].mode, cs[1..][i].value) == x;
      assert cs[i + 1] == cs[1..][i];
    }
    forall x | x in Added(net, cs)
      ensures x in (if cs[0].mode.kind.Param? then {} else {Key(net, cs[0].mode, cs[0].value)}) + Added(net, cs[1..])
    {
      var i :| 0 <= i < |cs| && !cs[i].mode.kind.Param? && Key(net, cs[i].mode, cs[i].value) == x;
      if i > 0 {
        assert cs[1..][i - 1] == cs[i];
      }
    }
  }

  /** New users all join, each with what its message gives it. */
  lemma AllJoin(s: State, keep: bool, users: seq<Joiner>)
    requires forall i :: 0 <= i < |users| ==> users[i].user !in s.users
    requires forall i, j :: 0 <= i < j < |users| ==> users[i].user != users[j].user
    ensures Joined(s, keep, users).modes == s.modes
    ensures forall u :: u in Joined(s, keep, users).users <==> u in s.users || exists i :: 0 <= i < |users| && users[i].user == u
    ensures forall u :: u in s.users ==> Joined(s, keep, users).users[u] == s.users[u]
    ensures forall i :: 0 <= i < |users| ==> Joined(s, keep, users).users[users[i].user] == if keep then users[i].status else {}
  {
    JoinedExactly(s, keep, users);
    hide Joined;
    assert forall i :: 0 <= i < |users| ==> FirstListed(users, i);
  }

  ghost function Keys(net: Services, m: Message): set<Slot> {
    Added(net, Read(net.table, m.line))
  }

  /** The view v' after a burst m of users who were not there, from the view v. */
  ghost predicate Merged(net: Services, v: View, m: Message, v': View) {
    && v'.created == (if m.ts < v.created then m.ts else v.created)
    && v'.keys == (if m.ts < v.created then Keys(net, m) else if m.ts == v.created then v.keys + Keys(net, m) else v.keys)
    && (forall u :: u in v'.users <==> u in v.users || Brings(m, u))
    && (forall u :: u in v.users ==> v'.users[u] == if m.ts < v.created && !net.mine(u) then {} else v.users[u])
    && (forall i :: 0 <= i < |m.users| ==> v'.users[m.users[i].user] == if m.ts <= v.created then m.users[i].status else {})
  }

  lemma MergeIsMerged(net: Services, now: int, c: Chan, m: Message)
    requires Burst(net, m) && c.created > 0
    requires forall u :: u in c.state.users ==> !Brings(m, u)
    ensures Merged(net, Seen(c), m, Seen(Merge(net, now, Some(c), m)))
  {
    if m.ts < c.created {
      var c' := Chan(m.ts, State(map[], Cleared(net, c.state.users, {})));
      assert forall u :: u in c'.state.users <==> u in c.state.users;
      assert forall u :: u in c'.state.users ==> c'.state.users[u] == if net.mine(u) then c.state.users[u] else {};
      assert KeysOf(c'.state) == {};
      MergeNoOlder(net, now, c', m);
      assert Merge(net, now, Some(c'), m) == Merge(net, now, Some(c), m) by {
        hide Cleared, InternalAll, Joined, Read;
      }
      assert {} + Keys(net, m) == Keys(net, m);
      hide Merge, Cleared, InternalAll, Joined, KeysOf, Read, Added, Burst, Brings;
    } else {
      MergeNoOlder(net, now, c, m);
    }
  }

  lemma MergeNoOlder(net: Services, now: int, c: Chan, m: Message)
    requires Burst(net, m) && m.ts >= c.created
    requires forall u :: u in c.state.users ==> !Brings(m, u)
    ensures Merged(net, Seen(c), m, Seen(Merge(net, now, Some(c), m)))
  {
    assert forall i :: 0 <= i < |m.users| ==> Brings(m, m.users[i].user);
    var cs := Read(net.table, m.line);
    if m.ts > c.created {
      AllJoin(c.state, false, m.users);
      hide InternalAll, Joined, Added, Read, Cleared;
    } else {
      BurstAdds(net, c.state, cs);
      AllJoin(InternalAll(net, c.state, cs), true, m.users);
      hide InternalAll, Joined, Added, Read, Cleared;
    }
  }

  /** The closed form of what a set of bursts makes of a channel. */
  ghost predicate Outcome(net: Services, start: Chan, msgs: seq<Message>, v: View) {
    && (start.created == v.created || exists m :: m in msgs && m.ts == v.created)
    && v.created <= start.created && (forall m :: m in msgs ==> v.created <= m.ts)
    && (forall u :: u in v.users <==> u in start.state.users || exists m :: m in msgs && Brings(m, u))
    && (forall u :: u in start.state.users ==>
         v.users[u] == if start.created == v.created || net.mine(u) then start.state.users[u] else {})
    && (forall m, i :: m in msgs && 0 <= i < |m.users| ==> v.users[m.users[i].user] == if m.ts == v.created then m.users[i].status else {})
    && (forall x :: x in v.keys <==>
         (start.created == v.created && x in KeysOf(start.state)) || exists m :: m in msgs && m.ts == v.created && x in Keys(net, m))
  }

  lemma {:induction false} MergeOutcome(net: Services, now: int, start: Chan, msgs: seq<Message>)
    requires Bursts(net, msgs) && Found(start, msgs)
    ensures MergeFrom(net, now, Some(start), msgs).Some?
    ensures Outcome(net, start, msgs, Seen(MergeFrom(net, now, Some(start), msgs).value))
    decreases |msgs|
  {
    if msgs != [] {
      var before, m := msgs[..|msgs| - 1], msgs[|msgs| - 1];
      assert msgs == before + [m];
      BurstsSplit(net, before, m);
      FoundSplit(start, before, m);
      hide Burst, Bursts, Merged, Merge, Seen, Brings, Found;
      MergeOutcome(net, now, start, before);
      var c := MergeFrom(net, now, Some(start), before).value;
      OutcomeIsApart(net, start, before, m, c);
      MergeIsMerged(net, now, c, m);
      OutcomeStep(net, start, before, Seen(c), m, Seen(MergeFrom(net, now, Some(start), msgs).value));
    }
  }

  lemma BurstsSplit(net: Services, before: seq<Message>, m: Message)
    requires Bursts(net, before + [m])
    ensures Bursts(net, before) && Burst(net, m)
    ensures forall n, u :: n in before && Brings(n, u) ==> !Brings(m, u)
  {
    var msgs := before + [m];
    assert multiset(msgs) == multiset(before) + multiset{m};
    assert m in msgs && multiset(msgs)[m] == multiset(before)[m] + 1;
    assert forall n :: n in before ==> n in msgs && n != m;
    forall n
      ensures multiset(before)[n] <= 1
    {
      assert multiset(before)[n] <= multiset(msgs)[n];
    }
  }

  lemma FoundSplit(start: Chan, before: seq<Message>, m: Message)
    requires Found(start, before + [m])
    ensures Found(start, before) && start.created > 0 && forall u :: u in start.state.users ==> !Brings(m, u)
  {
    assert m in before + [m];
  }

  lemma OutcomeIsApart(net: Services, start: Chan, msgs: seq<Message>, m: Message, c: Chan)
    requires Bursts(net, msgs) && start.created > 0 && Outcome(net, start, msgs, Seen(c))
    requires (forall n, u :: n in msgs && Brings(n, u) ==> !Brings(m, u)) && forall u :: u in start.state.users ==> !Brings(m, u)
    ensures c.created > 0 && forall u :: u in c.state.users ==> !Brings(m, u)
    ensures Seen(c).users == c.state.users
    ensures forall n, u :: n in msgs && Brings(n, u) ==> !net.mine(u)
  {
    hide Merge, Keys;
  }

  lemma OutcomeStep(net: Services, start: Chan, msgs: seq<Message>, v: View, m: Message, v': View)
    requires Outcome(net, start, msgs, v) && Merged(net, v, m, v')
    requires forall u :: u in v.users ==> !Brings(m, u)
    requires forall n, u :: n in msgs && Brings(n, u) ==> !net.mine(u)
    ensures Outcome(net, start, msgs + [m], v')
  {
    assert forall n, i :: n in msgs && 0 <= i < |n.users| ==> Brings(n, n.users[i].user);
    hide Keys, KeysOf;
  }

  /** The closed form leaves no choice. */
  lemma OutcomeIsUnique(net: Services, start: Chan, a: seq<Message>, b: seq<Message>, v: View, w: View)
    requires (forall m :: m in a <==> m in b) && Outcome(net, start, a, v) && Outcome(net, start, b, w)
    ensures v == w
  {
    hide Keys, KeysOf;
    assert v.created == w.created;
    assert forall x :: x in v.keys <==> x in w.keys;
    forall u
      ensures (u in v.users <==> u in w.users) && (u in v.users ==> v.users[u] == w.users[u])
    {
      if u in v.users && u !in start.state.users {
        var m :| m in a && Brings(m, u);
        var i :| 0 <= i < |m.users| && m.users[i].user == u;
      }
    }
  }

  // ---------- no channel yet ----------

  /** A channel that is not there is like an empty one younger than all messages. */
  const NOTHING := State(map[], map[])

  ghost predicate Before(msgs: seq<Message>, ts: int) {
    forall m :: m in msgs ==> 0 < m.ts < ts
  }

  lemma {:induction false} FromNothing(net: Services, now: int, msgs: seq<Message>, ts: int)
    requires msgs != [] && Before(msgs, ts)
    ensures MergeFrom(net, now, None, msgs) == MergeFrom(net, now, Some(Chan(ts, NOTHING)), msgs)
    decreases |msgs|
  {
    hide Merge;
    var before, m := msgs[..|msgs| - 1], msgs[|msgs| - 1];
    assert msgs == before + [m] && m in msgs;
    if before == [] {
      MergeNothing(net, now, m, ts);
      assert MergeFrom(net, now, None, before) == None && MergeFrom(net, now, Some(Chan(ts, NOTHING)), before) == Some(Chan(ts, NOTHING));
    } else {
      FromNothing(net, now, before, ts);
    }
  }

  lemma MergeNothing(net: Services, now: int, m: Message, ts: int)
    requires 0 < m.ts < ts
    ensures Merge(net, now, None, m) == Merge(net, now, Some(Chan(ts, NOTHING)), m)
  {
    assert Cleared(net, map[], {}) == map[];
    hide Joined, InternalAll, Read, Cleared;
  }

  lemma {:induction false} SomeTime(msgs: seq<Message>) returns (ts: int)
    ensures ts > 0 && forall m :: m in msgs ==> m.ts < ts
  {
    ts := 1;
    if msgs != [] {
      ts := SomeTime(msgs[1..]);
      if msgs[0].ts >= ts {
        ts := msgs[0].ts + 1;
      }
    }
  }

  lemma BurstsAreBefore(net: Services, msgs: seq<Message>) returns (ts: int)
    requires Bursts(net, msgs)
    ensures ts > 0 && Before(msgs, ts) && Found(Chan(ts, NOTHING), msgs)
  {
    ts := SomeTime(msgs);
    assert forall m :: m in msgs ==> Burst(net, m);
  }

  /** Of a new channel: the earliest timestamp; the users of all messages, with their status if theirs is the earliest;
      the modes of all earliest messages. */
  ghost predicate NewOutcome(net: Services, msgs: seq<Message>, v: View) {
    && (exists m :: m in msgs && m.ts == v.created) && (forall m :: m in msgs ==> v.created <= m.ts)
    && (forall u :: u in v.users <==> exists m :: m in msgs && Brings(m, u))
    && (forall m, i :: m in msgs && 0 <= i < |m.users| ==> v.users[m.users[i].user] == if m.ts == v.created then m.users[i].status else {})
    && (forall x :: x in v.keys <==> exists m :: m in msgs && m.ts == v.created && x in Keys(net, m))
  }

  lemma MergeNewOutcome(net: Services, now: int, msgs: seq<Message>)
    requires Bursts(net, msgs) && msgs != []
    ensures MergeFrom(net, now, None, msgs).Some? && NewOutcome(net, msgs, Seen(MergeFrom(net, now, None, msgs).value))
  {
    var ts := BurstsAreBefore(net, msgs);
    assert msgs[0] in msgs;
    FromNothing(net, now, msgs, ts);
    MergeOutcome(net, now, Chan(ts, NOTHING), msgs);
    NothingBefore(net, ts, msgs, Seen(MergeFrom(net, now, None, msgs).value));
    hide *;
  }

  /** A channel younger than every message, with nothing on it, leaves no trace. */
  lemma NothingBefore(net: Services, ts: int, msgs: seq<Message>, v: View)
    requires msgs != [] && Before(msgs, ts) && Outcome(net, Chan(ts, NOTHING), msgs, v)
    ensures NewOutcome(net, msgs, v)
  {
    hide Keys, Brings, KeysOf;
    assert msgs[0] in msgs;
  }

  /** Convergence: from any channel without their users, or none, in whatever order the bursts arrive, and whatever the
      clocks say, all end with the same channel. */
  lemma Convergence(net: Services, now: int, now': int, start: Option<Chan>, msgs: seq<Message>, msgs': seq<Message>)
    requires Bursts(net, msgs) && msgs != [] && multiset(msgs) == multiset(msgs') && (start.Some? ==> Found(start.value, msgs))
    ensures MergeFrom(net, now, start, msgs).Some? && MergeFrom(net, now', start, msgs').Some?
    ensures Seen(MergeFrom(net, now, start, msgs).value) == Seen(MergeFrom(net, now', start, msgs').value)
  {
    SameMembers(msgs, msgs');
    assert msgs[0] in msgs;
    BurstsPermute(net, msgs, msgs');
    var from;
    if start.Some? {
      from := start.value;
    } else {
      var ts := BurstsAreBefore(net, msgs);
      from := Chan(ts, NOTHING);
      FromNothing(net, now, msgs, ts);
      FromNothing(net, now', msgs', ts);
    }
    MergeOutcome(net, now, from, msgs);
    MergeOutcome(net, now', from, msgs');
    hide Outcome, Seen, Bursts, MergeFrom;
    OutcomeIsUnique(net, from, msgs, msgs', Seen(MergeFrom(net, now, Some(from), msgs).value), Seen(MergeFrom(net, now', Some(from), msgs').value));
  }

  lemma SameMembers(a: seq<Message>, b: seq<Message>)
    requires multiset(a) == multiset(b)
    ensures forall m :: m in a <==> m in b
  {
    forall m
      ensures m in a <==> m in b
    {
      assert m in a <==> multiset(a)[m] > 0;
      assert m in b <==> multiset(b)[m] > 0;
    }
  }

  lemma BurstsPermute(net: Services, a: seq<Message>, b: seq<Message>)
    requires Bursts(net, a) && multiset(a) == multiset(b) && forall m :: m in a <==> m in b
    ensures Bursts(net, b)
  {
  }

  // ---------- parameter modes ----------

  /** What changes do to a parameter mode in the end: nothing, or a value or its removal. */
  function LastOn(cs: seq<Change>, p: Mode): Option<Option<string>>
    decreases |cs|
  {
    if cs == [] then None
    else
      var later := LastOn(cs[1..], p);
      if later.Some? || cs[0].mode != p then later
      else Some(if cs[0].add then Some(cs[0].value) else None)
  }

  function Touches(net: Services, m: Message, p: Mode): Option<Option<string>> {
    LastOn(Read(net.table, m.line), p)
  }

  function ParamOf(s: State, p: Mode): Option<string> {
    if (p, "") in s.modes then Some(s.modes[(p, "")]) else None
  }

  lemma {:induction false} LineSetsParam(net: Services, s: State, cs: seq<Change>, p: Mode)
    requires p.kind.Param?
    ensures ParamOf(InternalAll(net, s, cs), p) == if LastOn(cs, p).Some? then LastOn(cs, p).value else ParamOf(s, p)
    decreases |cs|
  {
    if cs != [] {
      LineSetsParam(net, Internal(net, s, cs[0]), cs[1..], p);
      OneSetsParam(net, s, cs[0], p);
      hide Internal;
    }
  }

  lemma OneSetsParam(net: Services, s: State, c: Change, p: Mode)
    requires p.kind.Param?
    ensures ParamOf(Internal(net, s, c), p) == if c.mode != p then ParamOf(s, p) else if c.add then Some(c.value) else None
  {
  }

  /** The parameter after a message: what the message makes of it if it is heard, on what was there if that is kept. */
  lemma MergeSetsParam(net: Services, now: int, c: Chan, m: Message, p: Mode)
    requires Burst(net, m) && c.created > 0 && p.kind.Param? && forall u :: u in c.state.users ==> !Brings(m, u)
    ensures ParamOf(Merge(net, now, Some(c), m).state, p) ==
      if m.ts > c.created then ParamOf(c.state, p)
      else if Touches(net, m, p).Some? then Touches(net, m, p).value
      else if m.ts < c.created then None
      else ParamOf(c.state, p)
  {
    assert forall i :: 0 <= i < |m.users| ==> Brings(m, m.users[i].user);
    var cs := Read(net.table, m.line);
    if m.ts > c.created {
      AllJoin(c.state, false, m.users);
    } else {
      var s := if m.ts < c.created then State(map[], Cleared(net, c.state.users, {})) else c.state;
      LineSetsParam(net, s, cs, p);
      BurstAdds(net, s, cs);
      AllJoin(InternalAll(net, s, cs), true, m.users);
    }
    hide InternalAll, Joined, Read, LastOn, Added;
  }

  ghost predicate Earliest(start: Chan, msgs: seq<Message>, m: Message) {
    m in msgs && m.ts <= start.created && forall n :: n in msgs ==> m.ts <= n.ts
  }

  /** No message is older than the channel. */
  ghost predicate Holds(start: Chan, msgs: seq<Message>) {
    forall n :: n in msgs ==> start.created <= n.ts
  }

  /** The value is what some earliest message makes of the mode; or if none touches it, what the channel had, if no
      message was older. */
  ghost predicate ParamFrom(net: Services, start: Chan, msgs: seq<Message>, p: Mode, value: Option<string>) {
    || (exists m :: Earliest(start, msgs, m) && Touches(net, m, p) == Some(value))
    || (value == (if Holds(start, msgs) then ParamOf(start.state, p) else None)
        && forall m :: Earliest(start, msgs, m) ==> Touches(net, m, p) == None)
  }

  lemma ParamStep(net: Services, start: Chan, msgs: seq<Message>, m: Message, created: int, p: Mode, before: Option<string>, after: Option<string>)
    requires ParamFrom(net, start, msgs, p, before)
    requires (start.created == created || exists n :: n in msgs && n.ts == created)
    requires created <= start.created && forall n :: n in msgs ==> created <= n.ts
    requires after == if m.ts > created then before
      else if Touches(net, m, p).Some? then Touches(net, m, p).value
      else if m.ts < created then None
      else before
    ensures ParamFrom(net, start, msgs + [m], p, after)
  {
    hide Touches, ParamOf;
    var all := msgs + [m];
    assert m in all && forall n :: n in all <==> n in msgs || n == m;
    assert Holds(start, all) <==> Holds(start, msgs) && start.created <= m.ts;
    assert Holds(start, msgs) <==> start.created == created;
    assert m.ts < created ==> forall n :: Earliest(start, all, n) <==> n == m;
    assert m.ts == created ==> forall n :: Earliest(start, all, n) <==> Earliest(start, msgs, n) || n == m;
    assert m.ts > created ==> forall n :: Earliest(start, all, n) <==> Earliest(start, msgs, n);
  }

  lemma {:induction false} MergeParam(net: Services, now: int, start: Chan, msgs: seq<Message>, p: Mode)
    requires Bursts(net, msgs) && Found(start, msgs) && p.kind.Param?
    ensures MergeFrom(net, now, Some(start), msgs).Some?
    ensures ParamFrom(net, start, msgs, p, ParamOf(MergeFrom(net, now, Some(start), msgs).value.state, p))
    decreases |msgs|
  {
    if msgs != [] {
      var before, m := msgs[..|msgs| - 1], msgs[|msgs| - 1];
      assert msgs == before + [m];
      BurstsSplit(net, before, m);
      FoundSplit(start, before, m);
      hide Burst, Bursts, Merge, Seen, Brings, Touches, ParamOf, Found;
      MergeOutcome(net, now, start, before);
      MergeParam(net, now, start, before, p);
      var c := MergeFrom(net, now, Some(start), before).value;
      OutcomeIsApart(net, start, before, m, c);
      OutcomeIsEarliest(net, start, before, c);
      MergeSetsParam(net, now, c, m, p);
      ParamStep(net, start, before, m, c.created, p, ParamOf(c.state, p), ParamOf(Merge(net, now, Some(c), m).state, p));
    }
  }

  lemma OutcomeIsEarliest(net: Services, start: Chan, msgs: seq<Message>, c: Chan)
    requires Outcome(net, start, msgs, Seen(c))
    ensures (start.created == c.created || exists n :: n in msgs && n.ts == c.created)
    ensures c.created <= start.created && forall n :: n in msgs ==> c.created <= n.ts
  {
  }

  /** All earliest messages that touch the mode make the same of it. */
  ghost predicate Agree(net: Services, start: Chan, msgs: seq<Message>, p: Mode) {
    forall m, n :: Earliest(start, msgs, m) && Earliest(start, msgs, n) && Touches(net, m, p).Some? && Touches(net, n, p).Some? ==>
      Touches(net, m, p) == Touches(net, n, p)
  }

  /** Every order of the messages ends with the same parameter, or none. */
  ghost predicate SameInEveryOrder(net: Services, now: int, start: Chan, msgs: seq<Message>, p: Mode) {
    forall a, b :: multiset(a) == multiset(msgs) && multiset(b) == multiset(msgs) ==> SameParam(net, now, start, a, b, p)
  }

  ghost predicate SameParam(net: Services, now: int, start: Chan, a: seq<Message>, b: seq<Message>, p: Mode) {
    var x, y := MergeFrom(net, now, Some(start), a), MergeFrom(net, now, Some(start), b);
    x.Some? && y.Some? && ParamOf(x.value.state, p) == ParamOf(y.value.state, p)
  }

  /** A parameter mode converges if and only if the earliest messages that touch it agree. */
  lemma ParamExact(net: Services, now: int, start: Chan, msgs: seq<Message>, p: Mode)
    requires Bursts(net, msgs) && Found(start, msgs) && p.kind.Param?
    ensures SameInEveryOrder(net, now, start, msgs, p) <==> Agree(net, start, msgs, p)
  {
    hide Touches, Bursts, MergeFrom, ParamOf, Found;
    if Agree(net, start, msgs, p) {
      forall a, b | multiset(a) == multiset(msgs) && multiset(b) == multiset(msgs)
        ensures SameParam(net, now, start, a, b, p)
      {
        AgreedParam(net, now, start, msgs, a, b, p);
      }
    }
    if !Agree(net, start, msgs, p) {
      var m, n :| Earliest(start, msgs, m) && Earliest(start, msgs, n) && Touches(net, m, p).Some? && Touches(net, n, p).Some?
        && Touches(net, m, p) != Touches(net, n, p);
      var a := MoveLast(msgs, m);
      var b := MoveLast(msgs, n);
      LastDecides(net, now, start, msgs, a, m, p);
      LastDecides(net, now, start, msgs, b, n, p);
      assert !SameParam(net, now, start, a, b, p);
    }
  }

  /** The same for a channel that is not there yet. */
  lemma NewParamExact(net: Services, now: int, msgs: seq<Message>, p: Mode) returns (start: Chan)
    requires Bursts(net, msgs) && msgs != [] && p.kind.Param?
    ensures forall a :: multiset(a) == multiset(msgs) ==> MergeFrom(net, now, None, a) == MergeFrom(net, now, Some(start), a)
    ensures start.state == NOTHING && forall m :: Earliest(start, msgs, m) <==> m in msgs && forall n :: n in msgs ==> m.ts <= n.ts
    ensures SameInEveryOrder(net, now, start, msgs, p) <==> Agree(net, start, msgs, p)
  {
    var ts := BurstsAreBefore(net, msgs);
    start := Chan(ts, NOTHING);
    ParamExact(net, now, start, msgs, p);
    hide SameInEveryOrder, Agree;
    forall a | multiset(a) == multiset(msgs)
      ensures MergeFrom(net, now, None, a) == MergeFrom(net, now, Some(start), a)
    {
      SameMembers(msgs, a);
      assert msgs[0] in msgs;
      FromNothing(net, now, a, ts);
    }
  }

  lemma AgreedParam(net: Services, now: int, start: Chan, msgs: seq<Message>, a: seq<Message>, b: seq<Message>, p: Mode)
    requires Bursts(net, msgs) && Found(start, msgs) && p.kind.Param? && Agree(net, start, msgs, p)
    requires multiset(a) == multiset(msgs) && multiset(b) == multiset(msgs)
    ensures SameParam(net, now, start, a, b, p)
  {
    SameMembers(msgs, a);
    SameMembers(msgs, b);
    BurstsPermute(net, msgs, a);
    BurstsPermute(net, msgs, b);
    MergeParam(net, now, start, a, p);
    MergeParam(net, now, start, b, p);
    hide Touches, Bursts, MergeFrom, ParamOf, Found;
    assert Holds(start, a) <==> Holds(start, b);
    assert forall m :: Earliest(start, msgs, m) <==> Earliest(start, a, m);
    assert forall m :: Earliest(start, msgs, m) <==> Earliest(start, b, m);
  }

  lemma MoveLast(msgs: seq<Message>, m: Message) returns (a: seq<Message>)
    requires m in msgs
    ensures multiset(a) == multiset(msgs) && a != [] && a[|a| - 1] == m
  {
    var i :| 0 <= i < |msgs| && msgs[i] == m;
    a := msgs[..i] + msgs[i + 1..] + [m];
    assert msgs == msgs[..i] + [m] + msgs[i + 1..];
  }

  lemma LastDecides(net: Services, now: int, start: Chan, msgs: seq<Message>, a: seq<Message>, m: Message, p: Mode)
    requires Bursts(net, msgs) && Found(start, msgs) && p.kind.Param? && multiset(a) == multiset(msgs)
    requires a != [] && a[|a| - 1] == m && Earliest(start, msgs, m) && Touches(net, m, p).Some?
    ensures MergeFrom(net, now, Some(start), a).Some?
    ensures ParamOf(MergeFrom(net, now, Some(start), a).value.state, p) == Touches(net, m, p).value
  {
    var before := a[..|a| - 1];
    assert a == before + [m];
    SameMembers(msgs, a);
    BurstsPermute(net, msgs, a);
    BurstsSplit(net, before, m);
    FoundSplit(start, before, m);
    hide Burst, Bursts, Merge, Brings, Touches, ParamOf, Found;
    MergeOutcome(net, now, start, before);
    var c := MergeFrom(net, now, Some(start), before).value;
    OutcomeIsApart(net, start, before, m, c);
    OutcomeIsEarliest(net, start, before, c);
    assert m.ts <= c.created by {
      if start.created != c.created {
        var n :| n in before && n.ts == c.created;
        assert n in a && n in msgs;
      }
    }
    MergeSetsParam(net, now, c, m, p);
  }
}
