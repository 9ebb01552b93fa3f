/** The table of outstanding requests of modules/dns.cpp, MyManager. */
module DnsRequests {
  import opened Wrappers

  const IDS: int := 0x1_0000

  class Request {
    var id: int

    constructor ()
      ensures id == 0
    {
      id := 0;
    }
  }

  datatype Error = UnknownError | FormatError | ServerFailure | DomainNotFound | NotImplemented | Refused | NonstandardQuery | NoRecords

  /** How a request ends: OnLookupComplete, or OnError with a code. */
  datatype Outcome = Complete | Failed(error: Error)

  /** What HandlePacket looks at in a filled packet. */
  datatype Reply = Reply(id: int, isResponse: bool, opcode: int, rcode: int, questions: nat, answers: nat)

  /** How an answer ends a request; the response codes are those of RFC 1035, section 4.1.1. */
  method Judge(p: Reply) returns (outcome: Outcome)
    ensures p.opcode != 0 ==> outcome == Failed(NonstandardQuery)
    ensures p.opcode == 0 ==> (outcome == Complete <==> p.rcode == 0 && p.questions > 0 && p.answers > 0)
    ensures p.opcode == 0 ==> (outcome == Failed(NoRecords) <==> p.rcode == 0 && (p.questions == 0 || p.answers == 0))
    ensures p.opcode == 0 ==> (outcome == Failed(FormatError) <==> p.rcode == 1)
    ensures p.opcode == 0 ==> (outcome == Failed(ServerFailure) <==> p.rcode == 2)
    ensures p.opcode == 0 ==> (outcome == Failed(DomainNotFound) <==> p.rcode == 3)
    ensures p.opcode == 0 ==> (outcome == Failed(NotImplemented) <==> p.rcode == 4)
    ensures p.opcode == 0 ==> (outcome == Failed(Refused) <==> p.rcode == 5)
    ensures p.opcode == 0 ==> (outcome == Failed(UnknownError) <==> p.rcode !in {0, 1, 2, 3, 4, 5})
  {
    if p.opcode != 0 {
      return Failed(NonstandardQuery);
    } else if p.rcode != 0 {
      match p.rcode
      case 1 => return Failed(FormatError);
      case 2 => return Failed(ServerFailure);
      case 3 => return Failed(DomainNotFound);
      case 4 => return Failed(NotImplemented);
      case 5 => return Failed(Refused);
      case _ => return Failed(UnknownError);
    } else if p.questions == 0 || p.answers == 0 {
      return Failed(NoRecords);
    }
    return Complete;
  }

  datatype Processing = Cached | NoSocket | QueueFull | Issued

  /** How far id is ahead of cur on the wheel of ids, from 1 to 65536. */
  function Ahead(cur: int, id: int): (d: int)
    requires 0 <= cur < IDS && 0 <= id < IDS
    ensures 1 <= d <= IDS && (cur + d) % IDS == id
  {
    if id > cur then id - cur else id - cur + IDS
  }

  class Manager {
    var requests: map<int, Request>
    var curId: int
    /** The requests that have been made and not destroyed. */
    ghost var live: set<Request>

    predicate Usable(id: int)
      reads this
    {
      0 < id < IDS && id !in requests
    }

    ghost predicate Valid()
      reads this, live
    {
      && 0 <= curId < IDS
      && (forall id :: id in requests ==> 0 < id < IDS && requests[id] in live && requests[id].id == id)
      && (forall r :: r in live && r.id != 0 ==> r.id in requests && requests[r.id] == r)
    }

    constructor (random: int)
      requires 0 <= random < IDS
      ensures Valid() && requests == map[] && live == {}
    {
      requests, curId, live := map[], random, {};
    }

    method MakeRequest() returns (req: Request)
      requires Valid()
      modifies this`live
      ensures Valid() && fresh(req) && req.id == 0 && live == old(live) + {req}
    {
      req := new Request();
      live := live + {req};
    }

    /** Goes to the next usable id; it need not end unless there is one, whatever the queue says. */
    method GetID(ghost free: int) returns (id: int)
      requires Valid() && Usable(free)
      modifies this`curId
      ensures Valid() && id == curId && Usable(id)
      ensures forall other :: Usable(other) ==> Ahead(old(curId), id) <= Ahead(old(curId), other)
    {
      ghost var start := curId;
      ghost var steps := 1;
      curId := (curId + 1) % IDS;
      while curId == 0 || curId in requests
        invariant 0 <= curId < IDS && 1 <= steps <= IDS && steps == Ahead(start, curId)
        invariant forall other :: Usable(other) ==> Ahead(start, other) >= steps
        decreases IDS - steps
      {
        assert Ahead(start, free) > steps by {
          assert free != curId;
          SamePlace(start, free, curId);
        }
        forall other | Usable(other)
          ensures Ahead(start, other) >= steps + 1
        {
          SamePlace(start, other, curId);
        }
        curId := (curId + 1) % IDS;
        steps := steps + 1;
      }
      id := curId;
    }

    /** The other half: with no id usable, the loop rejects whatever id it comes to. */
    lemma NeverEnds(steps: nat)
      requires Valid() && forall id :: !Usable(id)
      ensures var id := (curId + steps) % IDS; id == 0 || id in requests
    {
      assert !Usable((curId + steps) % IDS);
    }

    /** Process; free is any usable id, if one is asked for. Issuing a request a second time leaves its first id behind
        in the table, and so breaks the invariant. */
    method Process(req: Request, cached: bool, haveSocket: bool, queued: nat, ghost free: int) returns (r: Processing)
      requires Valid() && req in live
      requires !cached && haveSocket && queued != 65535 ==> Usable(free)
      modifies this, req
      ensures Valid() <==> !(r == Issued && old(req.id) != 0)
      ensures r == if cached then Cached else if !haveSocket then NoSocket else if queued == 65535 then QueueFull else Issued
      ensures live == if r == Cached then old(live) - {req} else old(live)
      ensures r != Issued ==> req.id == old(req.id)
      ensures r != Issued ==> requests == if r == Cached && req.id != 0 then old(requests) - {req.id} else old(requests)
      ensures r == Issued ==> 0 < req.id < IDS && req.id !in old(requests) && requests == old(requests)[req.id := req]
    {
      if cached {
        Destroy(req);
        return Cached;
      }
      if !haveSocket {
        return NoSocket;
      }
      if queued == 65535 {
        return QueueFull;
      }
      var id := GetID(free);
      ghost var first := req.id;
      assert forall k :: k in requests && requests[k] == req ==> k == first;
      req.id := id;
      requests := requests[req.id := req];
      assert first != 0 ==> requests[first] == req && req.id != first;
      r := Issued;
    }

    method RemoveRequest(req: Request)
      modifies this`requests
      ensures requests == old(requests) - {req.id}
    {
      requests := requests - {req.id};
    }

    /** Request::~Request: only the item of the request itself goes, and none if it was never issued. */
    method Destroy(req: Request)
      requires Valid() && req in live
      modifies this`requests, this`live
      ensures Valid() && live == old(live) - {req}
      ensures forall id :: id in requests <==> id in old(requests) && old(requests)[id] != req
      ensures forall id :: id in requests ==> requests[id] == old(requests)[id]
      ensures requests == if req.id == 0 then old(requests) else old(requests) - {req.id}
    {
      assert requests - {0} == requests;
      RemoveRequest(req);
      live := live - {req};
    }

    /** The part of HandlePacket after a successful Fill that deals with answers. */
    method HandleAnswer(p: Reply, overTcp: bool, rightServer: bool) returns (done: Option<Request>, outcome: Outcome)
      requires Valid()
      modifies this`requests, this`live
      ensures Valid()
      ensures done == if p.isResponse && !overTcp && rightServer && p.id in old(requests) then Some(old(requests)[p.id]) else None
      ensures done.None? ==> requests == old(requests) && live == old(live)
      ensures done.Some? ==> requests == old(requests) - {p.id} && live == old(live) - {done.value} && done.value.id == p.id
      ensures p.opcode != 0 ==> outcome == Failed(NonstandardQuery)
      ensures p.opcode == 0 ==> (outcome == Complete <==> p.rcode == 0 && p.questions > 0 && p.answers > 0)
      ensures p.opcode == 0 ==> (outcome == Failed(NoRecords) <==> p.rcode == 0 && (p.questions == 0 || p.answers == 0))
      ensures p.opcode == 0 ==> (outcome == Failed(FormatError) <==> p.rcode == 1)
      ensures p.opcode == 0 ==> (outcome == Failed(ServerFailure) <==> p.rcode == 2)
      ensures p.opcode == 0 ==> (outcome == Failed(DomainNotFound) <==> p.rcode == 3)
      ensures p.opcode == 0 ==> (outcome == Failed(NotImplemented) <==> p.rcode == 4)
      ensures p.opcode == 0 ==> (outcome == Failed(Refused) <==> p.rcode == 5)
      ensures p.opcode == 0 ==> (outcome == Failed(UnknownError) <==> p.rcode !in {0, 1, 2, 3, 4, 5})
    {
      outcome := Judge(p);
      done := None;
      if !p.isResponse || overTcp || !rightServer {
        return;
      }
      if p.id !in requests {
        return;
      }
      var request := requests[p.id];
      assert forall id :: id in requests && requests[id] == request ==> id == p.id;
      Destroy(request);
      done := Some(request);
    }
  }

  lemma SamePlace(start: int, a: int, b: int)
    requires 0 <= start < IDS && 0 <= a < IDS && 0 <= b < IDS && a != b
    ensures Ahead(start, a) != Ahead(start, b)
  {
  }

  function Ids(n: nat): (s: set<int>)
    ensures |s| == n && forall id :: id in s <==> 0 < id <= n
  {
    if n == 0 then {} else Ids(n - 1) + {n}
  }

  lemma SomeIsUsable(m: Manager) returns (free: int)
    requires m.Valid() && |m.requests| < IDS - 1
    ensures m.Usable(free)
  {
    var all := Ids(IDS - 1);
    if all <= m.requests.Keys {
      Subset(all, m.requests.Keys);
      assert false;
    }
    free :| free in all && free !in m.requests.Keys;
  }

  lemma {:induction false} Subset<T>(a: set<T>, b: set<T>)
    requires a <= b
    ensures |a| <= |b| && (|a| == |b| ==> a == b)
  {
    assert b == a + (b - a);
    if a != b {
      assert b - a != {};
    }
  }

  /** A table without a usable id can be reached, while the queue of the socket need not be full. */
  method Exhaust(random: int) returns (m: Manager)
    requires 0 <= random < IDS
    ensures m.Valid() && forall id :: !m.Usable(id)
  {
    m := new Manager(random);
    for i := 0 to IDS - 1
      invariant m.Valid() && |m.requests| == i && fresh(m) && fresh(m.live)
    {
      var req := m.MakeRequest();
      ghost var free := SomeIsUsable(m);
      var r := m.Process(req, false, true, 0, free);
    }
    ghost var all := Ids(IDS - 1);
    assert m.requests.Keys <= all;
    Subset(m.requests.Keys, all);
  }
}
