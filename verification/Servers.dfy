/** The server tree of src/servers.cpp: introduction and removal, with the two indexes. */
module Servers {

  class Server {
    const name: string
    const sid: string
    var uplink: Server?
    var links: seq<Server>

    constructor (uplink: Server?, name: string, sid: string)
      ensures this.uplink == uplink && this.name == name && this.sid == sid && links == []
    {
      this.uplink, this.name, this.sid, links := uplink, name, sid, [];
    }
  }

  class User {
    var server: Server?
    var quits: nat

    constructor (server: Server)
      ensures this.server == server && quits == 0
    {
      this.server, quits := server, 0;
    }

    method Quit()
      modifies this
      ensures quits == old(quits) + 1 && server == old(server)
    {
      quits := quits + 1;
    }
  }

  // ---------- the tree that the link fields form ----------

  datatype Tree = Node(root: Server, kids: seq<Tree>)

  ghost function Nodes(t: Tree): set<Server> {
    {t.root} + NodesAll(t.kids)
  }

  ghost function NodesAll(ts: seq<Tree>): set<Server> {
    if ts == [] then {} else Nodes(ts[0]) + NodesAll(ts[1..])
  }

  ghost predicate Distinct(t: Tree) {
    t.root !in NodesAll(t.kids) && DistinctAll(t.kids)
  }

  ghost predicate DistinctAll(ts: seq<Tree>) {
    ts == [] || (Distinct(ts[0]) && DistinctAll(ts[1..]) && Nodes(ts[0]) !! NodesAll(ts[1..]))
  }

  /** The fields of the servers of t are the tree t, hanging below up. */
  ghost predicate Represents(t: Tree, up: Server?)
    reads Nodes(t)
  {
    t.root.uplink == up && RepresentsAll(t.kids, t.root, t.root.links)
  }

  ghost predicate RepresentsAll(ts: seq<Tree>, up: Server, links: seq<Server>)
    reads NodesAll(ts)
  {
    if ts == [] then links == []
    else links != [] && links[0] == ts[0].root && Represents(ts[0], up) && RepresentsAll(ts[1..], up, links[1..])
  }

  lemma {:induction false} KidsAt(ts: seq<Tree>, up: Server, links: seq<Server>, i: nat)
    requires RepresentsAll(ts, up, links) && DistinctAll(ts) && i < |ts|
    ensures |links| == |ts| && links[i] == ts[i].root && Represents(ts[i], up) && Distinct(ts[i])
    ensures Nodes(ts[i]) <= NodesAll(ts)
    ensures RepresentsAll(ts[..i], up, links[..i]) && DistinctAll(ts[..i])
    ensures NodesAll(ts[..i]) <= NodesAll(ts) && Nodes(ts[i]) !! NodesAll(ts[..i])
    decreases |ts|
  {
    LengthOfLinks(ts, up, links);
    if i > 0 {
      KidsAt(ts[1..], up, links[1..], i - 1);
      assert ts[..i][1..] == ts[1..][..i - 1] && links[..i][1..] == links[1..][..i - 1];
    }
  }

  lemma {:induction false} LengthOfLinks(ts: seq<Tree>, up: Server, links: seq<Server>)
    requires RepresentsAll(ts, up, links)
    ensures |links| == |ts|
    decreases |ts|
  {
    if ts != [] {
      LengthOfLinks(ts[1..], up, links[1..]);
    }
  }

  function RemoveFirst(links: seq<Server>, s: Server): seq<Server> {
    if links == [] then [] else if links[0] == s then links[1..] else [links[0]] + RemoveFirst(links[1..], s)
  }

  lemma {:induction false} LinksAreNodes(ts: seq<Tree>, up: Server, links: seq<Server>)
    requires RepresentsAll(ts, up, links)
    ensures forall l :: l in links ==> l in NodesAll(ts)
    decreases |ts|
  {
    if ts != [] {
      LinksAreNodes(ts[1..], up, links[1..]);
      assert links == [links[0]] + links[1..];
    }
  }

  lemma {:induction false} RemoveLast(front: seq<Server>, s: Server)
    requires s !in front
    ensures RemoveFirst(front + [s], s) == front
  {
    if front == [] {
      assert front + [s] == [s];
    } else {
      RemoveLast(front[1..], s);
      assert (front + [s])[1..] == front[1..] + [s];
    }
  }

  lemma {:induction false} RemoveAt(links: seq<Server>, s: Server, i: nat)
    requires i < |links| && links[i] == s && s !in links[..i]
    ensures RemoveFirst(links, s) == links[..i] + links[i + 1..]
  {
    if i > 0 {
      assert links[0] in links[..i] && links[1..][..i - 1] == links[..i][1..];
      RemoveAt(links[1..], s, i - 1);
      assert links == [links[0]] + links[1..];
    }
  }

  lemma {:induction false} NodesFrom(ts: seq<Tree>, i: nat)
    requires i < |ts|
    ensures NodesAll(ts[i..]) == Nodes(ts[i]) + NodesAll(ts[i + 1..])
    ensures Nodes(ts[i]) <= NodesAll(ts)
  {
    assert ts[i..][1..] == ts[i + 1..];
    if i > 0 {
      NodesFrom(ts[1..], i - 1);
    }
  }

  lemma {:induction false} PrefixNodes(ts: seq<Tree>, i: nat)
    requires i <= |ts|
    ensures NodesAll(ts[..i]) <= NodesAll(ts)
  {
    if i > 0 {
      assert ts[..i][1..] == ts[1..][..i - 1];
      PrefixNodes(ts[1..], i - 1);
    }
  }

  /** The last of the first i + 1 children: it is represented, and apart from those before it. */
  lemma LastKid(ts: seq<Tree>, up: Server, links: seq<Server>, i: nat)
    requires i < |ts| == |links|
    requires RepresentsAll(ts[..i + 1], up, links[..i + 1]) && DistinctAll(ts[..i + 1])
    ensures links[i] == ts[i].root && Represents(ts[i], up) && Distinct(ts[i])
    ensures RepresentsAll(ts[..i], up, links[..i]) && DistinctAll(ts[..i])
    ensures Nodes(ts[i]) !! NodesAll(ts[..i]) && NodesAll(ts[..i]) <= NodesAll(ts[..i + 1])
    ensures NodesAll(ts[i..]) == Nodes(ts[i]) + NodesAll(ts[i + 1..]) && Nodes(ts[i]) <= NodesAll(ts)
    ensures RemoveFirst(links[..i + 1], links[i]) == links[..i]
  {
    KidsAt(ts[..i + 1], up, links[..i + 1], i);
    assert ts[..i + 1][..i] == ts[..i] && links[..i + 1][..i] == links[..i];
    LinksAreNodes(ts[..i], up, links[..i]);
    assert links[..i + 1] == links[..i] + [links[i]];
    RemoveLast(links[..i], links[i]);
    NodesFrom(ts, i);
  }

  // ---------- subtrees, pruning and grafting ----------

  ghost function Sub(t: Tree, s: Server): (r: Tree)
    requires s in Nodes(t)
    ensures r.root == s && Nodes(r) <= Nodes(t)
  {
    if t.root == s then t else SubAll(t.kids, s)
  }

  ghost function SubAll(ts: seq<Tree>, s: Server): (r: Tree)
    requires s in NodesAll(ts)
    ensures r.root == s && Nodes(r) <= NodesAll(ts)
  {
    if s in Nodes(ts[0]) then Sub(ts[0], s) else SubAll(ts[1..], s)
  }

  /** The tree without the subtree of s; the other children keep their order. */
  ghost function Prune(t: Tree, s: Server): (r: Tree)
    ensures r.root == t.root
  {
    Node(t.root, PruneAll(t.kids, s))
  }

  ghost function PruneAll(ts: seq<Tree>, s: Server): seq<Tree> {
    if ts == [] then []
    else if ts[0].root == s then ts[1..]
    else [Prune(ts[0], s)] + PruneAll(ts[1..], s)
  }

  lemma {:induction false} PruneNodes(t: Tree, s: Server)
    requires Distinct(t) && t.root != s
    ensures Distinct(Prune(t, s))
    ensures Nodes(Prune(t, s)) == if s in Nodes(t) then Nodes(t) - Nodes(Sub(t, s)) else Nodes(t)
    ensures s !in Nodes(t) ==> Prune(t, s) == t
  {
    PruneNodesAll(t.kids, s);
  }

  lemma {:induction false} PruneNodesAll(ts: seq<Tree>, s: Server)
    requires DistinctAll(ts)
    ensures DistinctAll(PruneAll(ts, s))
    ensures NodesAll(PruneAll(ts, s)) == if s in NodesAll(ts) then NodesAll(ts) - Nodes(SubAll(ts, s)) else NodesAll(ts)
    ensures s !in NodesAll(ts) ==> PruneAll(ts, s) == ts
  {
    if ts != [] {
      var t, rest := ts[0], ts[1..];
      assert ts == [t] + rest;
      hide NodesAll, DistinctAll, Distinct, Nodes, Prune, PruneAll, Sub, SubAll;
      ForestHead(t, rest);
      ForestPruned(t, rest, s);
      if t.root != s {
        PruneNodes(t, s);
        PruneNodesAll(rest, s);
        ForestHead(Prune(t, s), PruneAll(rest, s));
      }
    }
  }

  lemma ForestPruned(t: Tree, rest: seq<Tree>, s: Server)
    ensures PruneAll([t] + rest, s) == if t.root == s then rest else [Prune(t, s)] + PruneAll(rest, s)
    ensures t.root == s ==> s in Nodes(t)
    ensures s in NodesAll([t] + rest) ==>
      SubAll([t] + rest, s) == if t.root == s then t else if s in Nodes(t) then Sub(t, s) else SubAll(rest, s)
  {
    hide Distinct;
    ForestHead(t, rest);
    assert ([t] + rest)[0] == t && ([t] + rest)[1..] == rest;
  }

  lemma ForestHead(t: Tree, rest: seq<Tree>)
    ensures NodesAll([t] + rest) == Nodes(t) + NodesAll(rest)
    ensures DistinctAll([t] + rest) <==> Distinct(t) && DistinctAll(rest) && Nodes(t) !! NodesAll(rest)
  {
    assert ([t] + rest)[1..] == rest;
  }

  lemma {:induction false} RemoveAbsent(links: seq<Server>, s: Server)
    requires s !in links
    ensures RemoveFirst(links, s) == links
  {
    if links != [] {
      RemoveAbsent(links[1..], s);
      assert links == [links[0]] + links[1..];
    }
  }

  /** The subtree of a server is represented below its uplink, which lies outside of it. */
  lemma {:induction false} SubRepresented(t: Tree, up: Server?, s: Server)
    requires Represents(t, up) && Distinct(t) && s in Nodes(t) && up !in Nodes(t)
    ensures Represents(Sub(t, s), s.uplink) && Distinct(Sub(t, s)) && s.uplink !in Nodes(Sub(t, s))
    ensures s != t.root ==> s.uplink != null && s.uplink in Nodes(t) && s in s.uplink.links
  {
    if s != t.root {
      SubRepresentedAll(t.kids, t.root, t.root.links, s);
    }
  }

  lemma {:induction false} SubRepresentedAll(ts: seq<Tree>, up: Server, links: seq<Server>, s: Server)
    requires RepresentsAll(ts, up, links) && DistinctAll(ts) && s in NodesAll(ts) && up !in NodesAll(ts)
    ensures var r := SubAll(ts, s); Represents(r, s.uplink) && Distinct(r) && s.uplink !in Nodes(r)
    ensures s.uplink != null && ((s.uplink == up && s in links) || (s.uplink in NodesAll(ts) && s in s.uplink.links))
  {
    if s in Nodes(ts[0]) {
      SubRepresented(ts[0], up, s);
    } else {
      SubRepresentedAll(ts[1..], up, links[1..], s);
    }
  }

  lemma {:induction false} LinksPointBack(t: Tree, up: Server?, x: Server)
    requires Represents(t, up) && x in Nodes(t)
    ensures forall l :: l in x.links ==> l.uplink == x
  {
    if x == t.root {
      RootsPointBack(t.kids, x, x.links);
    } else {
      LinksPointBackAll(t.kids, t.root, t.root.links, x);
    }
  }

  lemma {:induction false} LinksPointBackAll(ts: seq<Tree>, up: Server, links: seq<Server>, x: Server)
    requires RepresentsAll(ts, up, links) && x in NodesAll(ts)
    ensures forall l :: l in x.links ==> l.uplink == x
  {
    if x in Nodes(ts[0]) {
      LinksPointBack(ts[0], up, x);
    } else {
      LinksPointBackAll(ts[1..], up, links[1..], x);
    }
  }

  lemma {:induction false} RootsPointBack(ts: seq<Tree>, up: Server, links: seq<Server>)
    requires RepresentsAll(ts, up, links)
    ensures forall l :: l in links ==> l.uplink == up
    decreases |ts|
  {
    if ts != [] {
      RootsPointBack(ts[1..], up, links[1..]);
      assert links == [links[0]] + links[1..];
    }
  }

  /** The fields of all servers at one moment. */
  datatype Fields = Fields(uplink: map<Server, Server?>, links: map<Server, seq<Server>>)

  ghost predicate FieldsOf(f: Fields, nodes: set<Server>)
    reads nodes
  {
    forall x :: x in nodes ==> x in f.uplink && x in f.links && f.uplink[x] == x.uplink && f.links[x] == x.links
  }

  /** Represents, on recorded fields. */
  ghost predicate Recorded(t: Tree, up: Server?, f: Fields) {
    && t.root in f.uplink && t.root in f.links && f.uplink[t.root] == up
    && RecordedAll(t.kids, t.root, f.links[t.root], f)
  }

  ghost predicate RecordedAll(ts: seq<Tree>, up: Server, links: seq<Server>, f: Fields) {
    if ts == [] then links == []
    else links != [] && links[0] == ts[0].root && Recorded(ts[0], up, f) && RecordedAll(ts[1..], up, links[1..], f)
  }

  lemma {:induction false} SameRepresentation(t: Tree, up: Server?, f: Fields)
    requires FieldsOf(f, Nodes(t))
    ensures Represents(t, up) <==> Recorded(t, up, f)
  {
    SameRepresentationAll(t.kids, t.root, t.root.links, f);
  }

  lemma {:induction false} SameRepresentationAll(ts: seq<Tree>, up: Server, links: seq<Server>, f: Fields)
    requires FieldsOf(f, NodesAll(ts))
    ensures RepresentsAll(ts, up, links) <==> RecordedAll(ts, up, links, f)
  {
    if ts != [] && links != [] {
      SameRepresentation(ts[0], up, f);
      SameRepresentationAll(ts[1..], up, links[1..], f);
    }
  }

  /** The remaining servers only lost s from their links. */
  ghost predicate OnlyLost(nodes: set<Server>, s: Server, f: Fields, g: Fields) {
    forall x :: x in nodes ==>
      && x in f.uplink && x in g.uplink && g.uplink[x] == f.uplink[x]
      && x in f.links && x in g.links && g.links[x] == RemoveFirst(f.links[x], s)
  }

  lemma {:induction false} PruneRecorded(t: Tree, up: Server?, s: Server, f: Fields, g: Fields)
    requires Recorded(t, up, f) && Distinct(t) && t.root != s && OnlyLost(Nodes(Prune(t, s)), s, f, g)
    ensures Recorded(Prune(t, s), up, g)
  {
    PruneRecordedAll(t.kids, t.root, f.links[t.root], s, f, g);
  }

  lemma {:induction false} PruneRecordedAll(ts: seq<Tree>, up: Server, links: seq<Server>, s: Server, f: Fields, g: Fields)
    requires RecordedAll(ts, up, links, f) && DistinctAll(ts) && OnlyLost(NodesAll(PruneAll(ts, s)), s, f, g)
    ensures RecordedAll(PruneAll(ts, s), up, RemoveFirst(links, s), g)
  {
    if ts != [] {
      PruneNodesAll(ts[1..], s);
      if ts[0].root == s {
        PruneRecordedAll(ts[1..], up, links[1..], s, f, g);
        RecordedLinks(ts[1..], up, links[1..], f);
        RemoveAbsent(links[1..], s);
      } else {
        var r := PruneAll(ts, s);
        assert r[0] == Prune(ts[0], s) && r[1..] == PruneAll(ts[1..], s);
        PruneRecorded(ts[0], up, s, f, g);
        PruneRecordedAll(ts[1..], up, links[1..], s, f, g);
        var rest := RemoveFirst(links, s);
        assert rest[0] == links[0] && rest[1..] == RemoveFirst(links[1..], s);
      }
    }
  }

  lemma {:induction false} RecordedLinks(ts: seq<Tree>, up: Server, links: seq<Server>, f: Fields)
    requires RecordedAll(ts, up, links, f)
    ensures forall l :: l in links ==> l in NodesAll(ts)
    decreases |ts|
  {
    if ts != [] {
      RecordedLinks(ts[1..], up, links[1..], f);
      assert links == [links[0]] + links[1..];
    }
  }

  /** The tree with s as the last child of up. */
  ghost function Graft(t: Tree, up: Server, s: Server): (r: Tree)
    ensures r.root == t.root
  {
    if t.root == up then Node(up, t.kids + [Node(s, [])]) else Node(t.root, GraftAll(t.kids, up, s))
  }

  ghost function GraftAll(ts: seq<Tree>, up: Server, s: Server): seq<Tree> {
    if ts == [] then [] else [Graft(ts[0], up, s)] + GraftAll(ts[1..], up, s)
  }

  lemma {:induction false} GraftNodes(t: Tree, up: Server, s: Server)
    requires Distinct(t) && s !in Nodes(t)
    ensures Distinct(Graft(t, up, s))
    ensures Nodes(Graft(t, up, s)) == if up in Nodes(t) then Nodes(t) + {s} else Nodes(t)
    ensures up !in Nodes(t) ==> Graft(t, up, s) == t
  {
    if t.root == up {
      AppendNodes(t.kids, Node(s, []));
    } else {
      GraftNodesAll(t.kids, up, s);
    }
  }

  lemma {:induction false} GraftNodesAll(ts: seq<Tree>, up: Server, s: Server)
    requires DistinctAll(ts) && s !in NodesAll(ts)
    ensures DistinctAll(GraftAll(ts, up, s))
    ensures NodesAll(GraftAll(ts, up, s)) == if up in NodesAll(ts) then NodesAll(ts) + {s} else NodesAll(ts)
    ensures up !in NodesAll(ts) ==> GraftAll(ts, up, s) == ts
  {
    if ts != [] {
      GraftNodes(ts[0], up, s);
      GraftNodesAll(ts[1..], up, s);
      var r := GraftAll(ts, up, s);
      assert r[0] == Graft(ts[0], up, s) && r[1..] == GraftAll(ts[1..], up, s);
      assert ts == [ts[0]] + ts[1..];
    }
  }

  lemma {:induction false} AppendNodes(ts: seq<Tree>, leaf: Tree)
    requires DistinctAll(ts) && Distinct(leaf) && Nodes(leaf) !! NodesAll(ts)
    ensures DistinctAll(ts + [leaf]) && NodesAll(ts + [leaf]) == NodesAll(ts) + Nodes(leaf)
  {
    if ts == [] {
      assert [leaf][1..] == [] && ts + [leaf] == [leaf];
    } else {
      AppendNodes(ts[1..], leaf);
      assert (ts + [leaf])[1..] == ts[1..] + [leaf];
    }
  }

  /** The servers of the tree only gained s, as the last link of up. */
  ghost predicate OnlyGained(nodes: set<Server>, up: Server, s: Server, f: Fields, g: Fields) {
    && (forall x :: x in nodes ==>
         && x in f.uplink && x in g.uplink && g.uplink[x] == f.uplink[x]
         && x in f.links && x in g.links && g.links[x] == if x == up then f.links[x] + [s] else f.links[x])
    && s in g.uplink && s in g.links && g.uplink[s] == up && g.links[s] == []
  }

  lemma {:induction false} GraftRecorded(t: Tree, p: Server?, up: Server, s: Server, f: Fields, g: Fields)
    requires Recorded(t, p, f) && Distinct(t) && OnlyGained(Nodes(t), up, s, f, g)
    ensures Recorded(Graft(t, up, s), p, g)
  {
    if t.root == up {
      GraftAbsentRecorded(t.kids, up, f.links[up], up, s, f, g);
    } else {
      GraftRecordedAll(t.kids, t.root, f.links[t.root], up, s, f, g);
    }
  }

  lemma {:induction false} GraftRecordedAll(ts: seq<Tree>, p: Server, links: seq<Server>, up: Server, s: Server, f: Fields, g: Fields)
    requires RecordedAll(ts, p, links, f) && DistinctAll(ts) && OnlyGained(NodesAll(ts), up, s, f, g)
    ensures RecordedAll(GraftAll(ts, up, s), p, links, g)
  {
    if ts != [] {
      GraftRecorded(ts[0], p, up, s, f, g);
      GraftRecordedAll(ts[1..], p, links[1..], up, s, f, g);
      var r := GraftAll(ts, up, s);
      assert r[0] == Graft(ts[0], up, s) && r[1..] == GraftAll(ts[1..], up, s);
    }
  }

  /** Below up itself nothing changes but the new leaf at the end. */
  lemma {:induction false} GraftAbsentRecorded(ts: seq<Tree>, p: Server, links: seq<Server>, up: Server, s: Server, f: Fields, g: Fields)
    requires RecordedAll(ts, p, links, f) && up !in NodesAll(ts) && p == up && DistinctAll(ts) && OnlyGained(NodesAll(ts), up, s, f, g)
    ensures RecordedAll(ts + [Node(s, [])], p, links + [s], g)
  {
    var leaf := Node(s, []);
    if ts == [] {
      assert [leaf][1..] == [] && [s][1..] == [] && ts + [leaf] == [leaf] && links + [s] == [s];
    } else {
      RecordedUnchanged(ts[0], p, f, g);
      GraftAbsentRecorded(ts[1..], p, links[1..], up, s, f, g);
      assert (ts + [leaf])[1..] == ts[1..] + [leaf] && (links + [s])[1..] == links[1..] + [s];
    }
  }

  lemma {:induction false} RecordedUnchanged(t: Tree, p: Server?, f: Fields, g: Fields)
    requires Recorded(t, p, f) && forall x :: x in Nodes(t) ==>
      x in g.uplink && x in g.links && x in f.uplink && x in f.links && g.uplink[x] == f.uplink[x] && g.links[x] == f.links[x]
    ensures Recorded(t, p, g)
  {
    RecordedUnchangedAll(t.kids, t.root, f.links[t.root], f, g);
  }

  lemma {:induction false} RecordedUnchangedAll(ts: seq<Tree>, p: Server, links: seq<Server>, f: Fields, g: Fields)
    requires RecordedAll(ts, p, links, f) && forall x :: x in NodesAll(ts) ==>
      x in g.uplink && x in g.links && x in f.uplink && x in f.links && g.uplink[x] == f.uplink[x] && g.links[x] == f.links[x]
    ensures RecordedAll(ts, p, links, g)
  {
    if ts != [] {
      RecordedUnchanged(ts[0], p, f, g);
      RecordedUnchangedAll(ts[1..], p, links[1..], f, g);
    }
  }

  ghost function Names(nodes: set<Server>): set<string> {
    set s | s in nodes :: s.name
  }

  ghost function Sids(nodes: set<Server>): set<string> {
    set s | s in nodes && s.sid != "" :: s.sid
  }

  /** The indexes hold exactly these servers under their names and ids, which are unique. */
  ghost predicate Indexed(byName: map<string, Server>, byID: map<string, Server>, nodes: set<Server>) {
    && byName.Keys == Names(nodes) && byID.Keys == Sids(nodes)
    && (forall x :: x in nodes ==> x.name in byName && byName[x.name] == x)
    && (forall x :: x in nodes && x.sid != "" ==> x.sid in byID && byID[x.sid] == x)
  }

  lemma EraseMore(m: map<string, Server>, nodes: set<Server>, more: set<Server>)
    ensures m - Names(nodes) - Names(more) == m - Names(more + nodes)
    ensures m - Sids(nodes) - Sids(more) == m - Sids(more + nodes)
  {
    assert Names(more + nodes) == Names(nodes) + Names(more);
    assert Sids(more + nodes) == Sids(nodes) + Sids(more);
  }

  lemma EraseNone(m: map<string, Server>)
    ensures m - Names({}) == m && m - Sids({}) == m
  {
    assert Names({}) == {} && Sids({}) == {};
  }

  function Uplinks(s: Server): set<Server>
    reads s
  {
    if s.uplink == null then {} else {s.uplink}
  }

  /** Servers::ByName and ByID, and the users online. */
  class Network {
    var byName: map<string, Server>
    var byID: map<string, Server>
    var users: set<User>
    ghost var known: set<Server>  // every server object that was created

    constructor ()
      ensures byName == map[] && byID == map[] && users == {} && known == {}
    {
      byName, byID, users, known := map[], map[], {}, {};
    }

    /** Server::DelLink; false is its exception for a server without links. */
    method DelLink(parent: Server, s: Server) returns (ok: bool)
      modifies parent`links
      ensures ok <==> old(parent.links) != []
      ensures parent.links == RemoveFirst(old(parent.links), s)
    {
      var links := parent.links;
      if links == [] {
        return false;
      }
      ok := true;
      hide RemoveFirst;
      for i := 0 to |links|
        invariant parent.links == links && s !in links[..i]
      {
        if links[i] == s {
          RemoveAt(links, s, i);
          parent.links := links[..i] + links[i + 1..];
          return;
        }
        assert links[..i + 1] == links[..i] + [links[i]];
      }
      assert links[..|links|] == links;
      RemoveAbsent(links, s);
    }

    /** The first loop of the destructor. */
    method QuitUsers(s: Server)
      modifies users
      ensures forall u :: u in users ==>
        if old(u.server) == s then u.server == null && u.quits == old(u.quits) + 1
        else u.server == old(u.server) && u.quits == old(u.quits)
    {
      var todo := users;
      while todo != {}
        invariant todo <= users
        invariant forall u :: u in todo ==> u.server == old(u.server) && u.quits == old(u.quits)
        invariant forall u :: u in users - todo ==>
          if old(u.server) == s then u.server == null && u.quits == old(u.quits) + 1
          else u.server == old(u.server) && u.quits == old(u.quits)
        decreases todo
      {
        var u :| u in todo;
        if u.server == s {
          u.Quit();
          u.server := null;
        }
        todo := todo - {u};
      }
    }

    /** One turn of the child loop: the last of the links that are left is deleted, and takes itself out
        of the links of s. */
    method DeleteLink(s: Server, i: nat, ghost kids: seq<Tree>, ghost links: seq<Server>, ghost t: Tree)
      requires kids == t.kids && i < |kids| == |links| && NodesAll(kids) <= known && s !in NodesAll(kids)
      requires s.links == links[..i + 1] && RepresentsAll(kids[..i + 1], s, links[..i + 1]) && DistinctAll(kids[..i + 1])
      modifies this`byName, this`byID, users, Nodes(kids[i]), s`links
      ensures s.links == links[..i] && RepresentsAll(kids[..i], s, links[..i]) && DistinctAll(kids[..i])
      ensures byName == old(byName) - Names(Nodes(kids[i]))
      ensures byID == old(byID) - Sids(Nodes(kids[i]))
      ensures forall u :: u in users ==>
        if old(u.server) in Nodes(kids[i]) then u.server == null && u.quits == old(u.quits) + 1
        else u.server == old(u.server) && u.quits == old(u.quits)
      decreases t, 0
    {
      hide RemoveFirst, Names, Sids;
      LastKid(kids, s, links, i);
      PrefixNodes(kids, i);
      Delete(s.links[i], kids[i]);
    }

    /** The child loop of the destructor, from the last link to the first. */
    method DeleteKids(s: Server, ghost t: Tree)
      requires NodesAll(t.kids) <= known
      requires RepresentsAll(t.kids, s, s.links) && DistinctAll(t.kids) && s !in NodesAll(t.kids)
      modifies this`byName, this`byID, users, NodesAll(t.kids), s`links
      ensures byName == old(byName) - Names(NodesAll(t.kids))
      ensures byID == old(byID) - Sids(NodesAll(t.kids))
      ensures forall u :: u in users ==>
        if old(u.server) in NodesAll(t.kids) then u.server == null && u.quits == old(u.quits) + 1
        else u.server == old(u.server) && u.quits == old(u.quits)
      decreases t, 1
    {
      ghost var kids, links := t.kids, s.links;
      LengthOfLinks(kids, s, links);
      hide RemoveFirst, Names, Sids, RepresentsAll, DistinctAll;
      EraseNone(byName);
      EraseNone(byID);
      var i := |s.links|;
      assert kids[..i] == kids && links[..i] == links && kids[i..] == [];
      while i > 0
        invariant 0 <= i <= |kids| == |links| && s.links == links[..i]
        invariant RepresentsAll(kids[..i], s, links[..i]) && DistinctAll(kids[..i])
        invariant byName == old(byName) - Names(NodesAll(kids[i..]))
        invariant byID == old(byID) - Sids(NodesAll(kids[i..]))
        invariant forall u :: u in users ==>
          if old(u.server) in NodesAll(kids[i..]) then u.server == null && u.quits == old(u.quits) + 1
          else u.server == old(u.server) && u.quits == old(u.quits)
      {
        i := i - 1;
        NodesFrom(kids, i);
        EraseMore(old(byName), NodesAll(kids[i + 1..]), Nodes(kids[i]));
        EraseMore(old(byID), NodesAll(kids[i + 1..]), Nodes(kids[i]));
        DeleteLink(s, i, kids, links, t);
      }
      assert kids[0..] == kids;
    }

    /** Server::Delete and the destructor, on the server whose subtree is t: its users quit, it leaves
        its uplink, its children are deleted, and it leaves the indexes. */
    method Delete(s: Server, ghost t: Tree)
      requires Nodes(t) <= known
      requires t.root == s && Represents(t, s.uplink) && Distinct(t)
      requires s.uplink != null ==> s.uplink !in Nodes(t) && s in s.uplink.links
      modifies this`byName, this`byID, users, Nodes(t), Uplinks(s)`links
      ensures s.uplink == old(s.uplink)
      ensures s.uplink != null ==> s.uplink.links == RemoveFirst(old(s.uplink.links), s)
      ensures byName == old(byName) - Names(Nodes(t))
      ensures byID == old(byID) - Sids(Nodes(t))
      ensures forall u :: u in users ==>
        if old(u.server) in Nodes(t) then u.server == null && u.quits == old(u.quits) + 1
        else u.server == old(u.server) && u.quits == old(u.quits)
      decreases t, 2
    {
      assert Names({s}) == {s.name} && Sids({s}) == if s.sid != "" then {s.sid} else {};
      hide RemoveFirst, Names, Sids;
      QuitUsers(s);
      if s.uplink != null {
        var _ := DelLink(s.uplink, s);
      }
      DeleteKids(s, t);
      EraseMore(old(byName), NodesAll(t.kids), {s});
      EraseMore(old(byID), NodesAll(t.kids), {s});
      byName := byName - {s.name};
      if s.sid != "" {
        byID := byID - {s.sid};
      }
    }

    // ---------- the whole network ----------

    ghost function Now(): Fields
      reads this, known
    {
      Fields(map x | x in known :: x.uplink, map x | x in known :: x.links)
    }

    /** The servers form the tree below Me, the indexes hold exactly them under their unique names and
        ids, and users are on servers of the tree. */
    ghost predicate Valid(tree: Tree)
      reads this, Nodes(tree), users
    {
      && Nodes(tree) <= known && Distinct(tree) && Represents(tree, null) && Indexed(byName, byID, Nodes(tree))
      && (forall u :: u in users ==> u.server == null || u.server in Nodes(tree))
    }

    /** The constructor of Server with AddLink: a server is introduced as the last link of its uplink. The network
        stays well-formed if and only if name and id were not in use, as the indexes lose the server that had them. */
    method Introduce(up: Server, name: string, sid: string, ghost tree: Tree) returns (s: Server)
      requires Valid(tree) && up in Nodes(tree)
      modifies this, up`links
      ensures fresh(s) && s.name == name && s.sid == sid && s.uplink == up && up.links == old(up.links) + [s]
      ensures byName == old(byName)[name := s] && byID == if sid != "" then old(byID)[sid := s] else old(byID)
      ensures Valid(Graft(tree, up, s)) <==> name !in old(byName) && (sid != "" ==> sid !in old(byID))
      ensures Nodes(Graft(tree, up, s)) == Nodes(tree) + {s} && users == old(users)
    {
      hide Distinct, Represents, Recorded, Graft, Nodes, Indexed, Names, Sids, OnlyGained;
      ghost var before := Now();
      SameRepresentation(tree, null, before);
      s := Attach(up, name, sid, Nodes(tree));
      ghost var after := Now();
      assert s !in Nodes(tree);
      GraftNodes(tree, up, s);
      GraftRecorded(tree, null, up, s, before, after);
      SameRepresentation(Graft(tree, up, s), null, after);
      IndexesGrow(old(byName), old(byID), Nodes(tree), s);
    }

    /** The new object, its entries in the indexes and its link. */
    method Attach(up: Server, name: string, sid: string, ghost nodes: set<Server>) returns (s: Server)
      requires nodes <= known && up in nodes
      modifies this, up`links
      ensures fresh(s) && s.name == name && s.sid == sid && known == old(known) + {s} && users == old(users)
      ensures s.uplink == up && up.links == old(up.links) + [s]
      ensures byName == old(byName)[name := s] && byID == if sid != "" then old(byID)[sid := s] else old(byID)
      ensures OnlyGained(nodes, up, s, old(Now()), Now())
    {
      s := new Server(up, name, sid);
      byName := byName[name := s];
      if sid != "" {
        byID := byID[sid := s];
      }
      up.links := up.links + [s];
      known := known + {s};
    }

    /** Server::Delete on any server but the root keeps the network well-formed: it removes exactly the
        subtree of s, and quits exactly the users on it. */
    method Remove(s: Server, ghost tree: Tree)
      requires Valid(tree) && s in Nodes(tree) && s != tree.root
      modifies this`byName, this`byID, users, Nodes(tree)
      ensures Valid(Prune(tree, s))
      ensures forall x :: x in Nodes(tree) - Nodes(Sub(tree, s)) ==> x.uplink == old(x.uplink) && x.links == RemoveFirst(old(x.links), s)
      ensures Nodes(Prune(tree, s)) == Nodes(tree) - Nodes(Sub(tree, s))
      ensures forall u :: u in users ==>
        if old(u.server) in Nodes(Sub(tree, s)) then u.server == null && u.quits == old(u.quits) + 1
        else u.server == old(u.server) && u.quits == old(u.quits)
    {
      hide Distinct, Represents, Recorded, Prune, Nodes, Sub, RemoveFirst, Indexed, Names, Sids, OnlyLost;
      ghost var t, before := Sub(tree, s), Now();
      SubRepresented(tree, null, s);
      PruneNodes(tree, s);
      SameRepresentation(tree, null, before);
      forall x | x in Nodes(tree) && x != s.uplink
        ensures RemoveFirst(x.links, s) == x.links
      {
        LinksPointBack(tree, null, x);
        RemoveAbsent(x.links, s);
      }
      Detach(s, t, Nodes(tree));
      ghost var after := Now();
      PruneRecorded(tree, null, s, before, after);
      SameRepresentation(Prune(tree, s), null, after);
      IndexesShrink(old(byName), old(byID), Nodes(tree), Nodes(t));
    }

    /** Server::Delete, with what it leaves of the fields of the other servers. */
    method Detach(s: Server, ghost t: Tree, ghost nodes: set<Server>)
      requires Nodes(t) <= nodes <= known && t.root == s && Represents(t, s.uplink) && Distinct(t)
      requires s.uplink != null && s.uplink in nodes && s.uplink !in Nodes(t) && s in s.uplink.links
      requires forall x :: x in nodes && x != s.uplink ==> RemoveFirst(x.links, s) == x.links
      modifies this`byName, this`byID, users, Nodes(t), s.uplink`links
      ensures OnlyLost(nodes - Nodes(t), s, old(Now()), Now())
      ensures forall x :: x in nodes - Nodes(t) ==> x.uplink == old(x.uplink) && x.links == RemoveFirst(old(x.links), s)
      ensures byName == old(byName) - Names(Nodes(t)) && byID == old(byID) - Sids(Nodes(t))
      ensures forall u :: u in users ==>
        if old(u.server) in Nodes(t) then u.server == null && u.quits == old(u.quits) + 1
        else u.server == old(u.server) && u.quits == old(u.quits)
    {
      hide Distinct, Represents, Nodes, RemoveFirst, Names, Sids;
      Delete(s, t);
    }
  }

  lemma IndexesGrow(byName: map<string, Server>, byID: map<string, Server>, nodes: set<Server>, s: Server)
    requires Indexed(byName, byID, nodes) && s !in nodes
    ensures Indexed(byName[s.name := s], if s.sid != "" then byID[s.sid := s] else byID, nodes + {s}) <==>
            s.name !in byName && (s.sid != "" ==> s.sid !in byID)
  {
    if s.name in byName {
      var x :| x in nodes && x.name == s.name;
      assert byName[s.name := s][x.name] != x;
    }
    if s.sid != "" && s.sid in byID {
      var x :| x in nodes && x.sid == s.sid;
      assert byID[s.sid := s][x.sid] != x;
    }
    assert Names(nodes + {s}) == Names(nodes) + {s.name};
    assert Sids(nodes + {s}) == Sids(nodes) + if s.sid != "" then {s.sid} else {};
    assert forall x :: x in nodes ==> x.name in Names(nodes) && (x.sid != "" ==> x.sid in Sids(nodes));
  }

  lemma IndexesShrink(byName: map<string, Server>, byID: map<string, Server>, nodes: set<Server>, gone: set<Server>)
    requires gone <= nodes && Indexed(byName, byID, nodes)
    ensures Indexed(byName - Names(gone), byID - Sids(gone), nodes - gone)
  {
    forall n
      ensures n in Names(nodes) && n !in Names(gone) <==> n in Names(nodes - gone)
      ensures n in Sids(nodes) && n !in Sids(gone) <==> n in Sids(nodes - gone)
    {
      if n in Names(nodes - gone) {
        var x :| x in nodes - gone && x.name == n;
        assert forall y :: y in gone && y.name == n ==> y == x;
      }
      if n in Sids(nodes - gone) {
        var x :| x in nodes - gone && x.sid != "" && x.sid == n;
        assert forall y :: y in gone && y.sid == n ==> y == x;
      }
    }
  }
}
