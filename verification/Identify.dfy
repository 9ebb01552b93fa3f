/** The login requests of src/account.cpp: held, dispatched and finished identification requests. */
module Identify {

  type Module = int

  /** One request with a record of the callbacks it made and of its deletions. */
  datatype State = State(owner: Module, holds: set<Module>, dispatched: bool, success: bool,
                         onSuccess: nat, onFail: nat, deletions: nat)

  function Created(owner: Module): State {
    State(owner, {}, false, false, 0, 0, 0)
  }

  /** OnFail unless the request has succeeded, then delete. */
  function Finished(s: State): State {
    s.(onFail := if s.success then s.onFail else s.onFail + 1, deletions := s.deletions + 1)
  }

  function Held(s: State, m: Module): State {
    s.(holds := s.holds + {m})
  }

  function Released(s: State, m: Module): State {
    var t := s.(holds := s.holds - {m});
    if t.holds == {} && t.dispatched then Finished(t) else t
  }

  function Succeeded(s: State): State {
    if s.success then s else s.(onSuccess := s.onSuccess + 1, success := true)
  }

  function Dispatched(s: State): State {
    if s.holds == {} then Finished(s) else s.(dispatched := true)
  }

  function Unloaded(s: State, m: Module): State {
    var t := s.(holds := s.holds - {m});
    if t.holds == {} && t.dispatched then Finished(t)
    else if t.owner == m then Finished(t)
    else t
  }

  predicate Alive(s: State) {
    s.deletions == 0
  }

  /** A live request has made no failure callback and one success callback exactly when it succeeded,
      and once dispatched it waits for some hold. A deleted one was deleted once, after exactly one
      callback, which was OnSuccess exactly when it had succeeded. */
  predicate Consistent(s: State) {
    if Alive(s) then s.onFail == 0 && s.onSuccess == (if s.success then 1 else 0) && (s.dispatched ==> s.holds != {})
    else s.deletions == 1 && s.onSuccess + s.onFail == 1 && (s.onSuccess == 1 <==> s.success)
  }

  // ---------- the source's objects ----------

  class IdentifyRequest {
    const owner: Module
    var holds: set<Module>
    var dispatched: bool
    var success: bool
    ghost var onSuccess: nat
    ghost var onFail: nat
    ghost var deletions: nat

    ghost function View(): State
      reads this
    {
      State(owner, holds, dispatched, success, onSuccess, onFail, deletions)
    }

    constructor (owner: Module)
      ensures View() == Created(owner)
    {
      this.owner, holds, dispatched, success := owner, {}, false, false;
      onSuccess, onFail, deletions := 0, 0, 0;
    }
  }

  /** The static Requests set with the operations on its members. */
  class Registry {
    var requests: set<IdentifyRequest>

    ghost predicate Valid()
      reads this, requests
    {
      forall r :: r in requests ==> Alive(r.View()) && Consistent(r.View())
    }

    constructor ()
      ensures requests == {}
    {
      requests := {};
    }

    method Create(owner: Module) returns (r: IdentifyRequest)
      requires Valid()
      modifies this
      ensures Valid() && fresh(r) && requests == old(requests) + {r} && r.View() == Created(owner)
    {
      r := new IdentifyRequest(owner);
      requests := requests + {r};
    }

    /** The shared end of Release, Dispatch and ModuleUnload: OnFail if needed, and delete. */
    method Finish(r: IdentifyRequest)
      modifies this, r
      ensures r.View() == Finished(old(r.View())) && requests == old(requests) - {r}
    {
      if !r.success {
        r.onFail := r.onFail + 1;
      }
      r.deletions := r.deletions + 1;
      requests := requests - {r};
    }

    method Hold(r: IdentifyRequest, m: Module)
      requires Valid() && r in requests
      modifies r
      ensures Valid() && r.View() == Held(old(r.View()), m)
    {
      r.holds := r.holds + {m};
    }

    method Release(r: IdentifyRequest, m: Module)
      requires Valid() && r in requests
      modifies this, r
      ensures Valid() && r.View() == Released(old(r.View()), m) && Consistent(r.View())
      ensures requests == if Alive(r.View()) then old(requests) else old(requests) - {r}
      ensures !Alive(r.View()) ==> r.holds == {}
    {
      r.holds := r.holds - {m};
      if r.holds == {} && r.dispatched {
        Finish(r);
      }
    }

    method Success(r: IdentifyRequest, m: Module)
      requires Valid() && r in requests
      modifies r
      ensures Valid() && r.View() == Succeeded(old(r.View()))
    {
      if !r.success {
        r.onSuccess := r.onSuccess + 1;
        r.success := true;
      }
    }

    method Dispatch(r: IdentifyRequest)
      requires Valid() && r in requests
      modifies this, r
      ensures Valid() && r.View() == Dispatched(old(r.View())) && Consistent(r.View())
      ensures requests == if Alive(r.View()) then old(requests) else old(requests) - {r}
      ensures !Alive(r.View()) ==> r.holds == {}
    {
      if r.holds == {} {
        Finish(r);
      } else {
        r.dispatched := true;
      }
    }

    /** What ModuleUnload does to one request. */
    method UnloadOne(ir: IdentifyRequest, m: Module)
      requires ir in requests && Alive(ir.View())
      modifies this, ir
      ensures ir.View() == Unloaded(old(ir.View()), m)
      ensures requests == if Alive(ir.View()) then old(requests) else old(requests) - {ir}
    {
      ir.holds := ir.holds - {m};
      if ir.holds == {} && ir.dispatched {
        Finish(ir);
        return;
      }
      if ir.owner == m {
        Finish(ir);
      }
    }

    /** The loop moves its iterator on before it may delete the current request, so it visits exactly
        the requests that were in the set when it began. */
    method ModuleUnload(m: Module)
      requires Valid()
      modifies this, requests
      ensures Valid()
      ensures forall r :: r in old(requests) ==> r.View() == Unloaded(old(r.View()), m) && Consistent(r.View())
      ensures requests == set r | r in old(requests) && Alive(r.View())
    {
      ghost var all := requests;
      var todo := requests;
      while todo != {}
        invariant todo <= all && todo <= requests <= all
        invariant forall r :: r in todo ==> r.View() == old(r.View())
        invariant forall r :: r in all - todo ==> r.View() == Unloaded(old(r.View()), m)
        invariant forall r :: r in all - todo ==> (r in requests <==> Alive(r.View()))
        decreases todo
      {
        var ir :| ir in todo;
        todo := todo - {ir};
        UnloadOne(ir, m);
      }
    }
  }

  // ---------- every run ----------

  datatype Call = New(id: int, owner: Module) | Hold(id: int, m: Module) | Release(id: int, m: Module)
    | Success(id: int, m: Module) | Dispatch(id: int) | ModuleUnload(m: Module)

  /** All requests ever created, and the Requests set. */
  datatype World = World(all: map<int, State>, requests: set<int>)

  /** Calls are made on live requests only; a new request is a new object. */
  predicate Enabled(w: World, c: Call) {
    match c
    case New(id, _) => id !in w.all
    case ModuleUnload(_) => true
    case _ => c.id in w.requests && c.id in w.all
  }

  function Live(all: map<int, State>): set<int> {
    set id | id in all && Alive(all[id])
  }

  function Update(w: World, id: int, s: State): World {
    World(w.all[id := s], if Alive(s) then w.requests else w.requests - {id})
  }

  function Step(w: World, c: Call): World
    requires Enabled(w, c)
  {
    match c
    case New(id, owner) => World(w.all[id := Created(owner)], w.requests + {id})
    case Hold(id, m) => Update(w, id, Held(w.all[id], m))
    case Release(id, m) => Update(w, id, Released(w.all[id], m))
    case Success(id, m) => Update(w, id, Succeeded(w.all[id]))
    case Dispatch(id) => Update(w, id, Dispatched(w.all[id]))
    case ModuleUnload(m) =>
      var all := map id | id in w.all :: if id in w.requests then Unloaded(w.all[id], m) else w.all[id];
      World(all, set id | id in w.requests && id in all && Alive(all[id]))
  }

  ghost predicate CanRun(w: World, calls: seq<Call>)
    decreases |calls|, 0
  {
    calls == [] || (CanRun(w, calls[..|calls| - 1]) && Enabled(Run(w, calls[..|calls| - 1]), calls[|calls| - 1]))
  }

  ghost function Run(w: World, calls: seq<Call>): World
    requires CanRun(w, calls)
    decreases |calls|, 1
  {
    if calls == [] then w else Step(Run(w, calls[..|calls| - 1]), calls[|calls| - 1])
  }

  const EMPTY := World(map[], {})

  ghost predicate Good(w: World) {
    w.requests == Live(w.all) && forall id :: id in w.all ==> Consistent(w.all[id])
  }

  lemma StepKeepsGood(w: World, c: Call)
    requires Good(w) && Enabled(w, c)
    ensures Good(Step(w, c))
  {
    var v := Step(w, c);
    match c {
      case New(id, owner) =>
        assert v.requests == Live(v.all);
      case ModuleUnload(m) =>
        assert v.requests == Live(v.all);
      case _ =>
        assert v.requests == Live(v.all);
    }
  }

  predicate SuccessCalled(calls: seq<Call>, id: int) {
    exists i :: 0 <= i < |calls| && calls[i].Success? && calls[i].id == id
  }

  /** Over every run: Requests is exactly the set of live requests; every request is deleted at most
      once, has had exactly one callback by then and none but OnSuccess before; and it counts as
      successful exactly when some Success call was made on it. */
  lemma {:induction false} EveryRun(calls: seq<Call>)
    requires CanRun(EMPTY, calls)
    ensures Good(Run(EMPTY, calls))
    ensures forall id :: id in Run(EMPTY, calls).all ==> (Run(EMPTY, calls).all[id].success <==> SuccessCalled(calls, id))
    ensures forall id :: SuccessCalled(calls, id) ==> id in Run(EMPTY, calls).all
    decreases |calls|
  {
    if calls != [] {
      var n := |calls| - 1;
      var before, c := calls[..n], calls[n];
      EveryRun(before);
      StepKeepsGood(Run(EMPTY, before), c);
      forall id
        ensures SuccessCalled(calls, id) <==> SuccessCalled(before, id) || (c.Success? && c.id == id)
      {
        if SuccessCalled(calls, id) {
          var i :| 0 <= i < |calls| && calls[i].Success? && calls[i].id == id;
          assert i < n ==> before[i] == calls[i];
        }
        if SuccessCalled(before, id) {
          var i :| 0 <= i < n && before[i].Success? && before[i].id == id;
          assert calls[i] == before[i];
        }
      }
    }
  }

  /** A deleted request stays as it was: no later call makes another callback or deletes it again. */
  lemma {:induction false} DeletedForGood(calls: seq<Call>, n: nat, id: int)
    requires CanRun(EMPTY, calls) && n <= |calls| && CanRun(EMPTY, calls[..n])
    requires id in Run(EMPTY, calls[..n]).all && !Alive(Run(EMPTY, calls[..n]).all[id])
    ensures id in Run(EMPTY, calls).all && Run(EMPTY, calls).all[id] == Run(EMPTY, calls[..n]).all[id]
    decreases |calls|
  {
    if n == |calls| {
      assert calls[..n] == calls;
    } else {
      var before := calls[..|calls| - 1];
      assert before[..n] == calls[..n];
      DeletedForGood(before, n, id);
      EveryRun(before);
    }
  }

  /** Release and Dispatch delete only a request that nobody holds. */
  lemma DeletedWithoutHolds(w: World, c: Call)
    requires Good(w) && Enabled(w, c) && (c.Release? || c.Dispatch?)
    requires !Alive(Step(w, c).all[c.id])
    ensures Step(w, c).all[c.id].holds == {}
  {
    assert Alive(w.all[c.id]);
  }

  // ---------- when a request ends ----------

  predicate DispatchCalled(calls: seq<Call>, id: int) {
    exists i :: 0 <= i < |calls| && calls[i] == Dispatch(id)
  }

  /** The module has a hold that was neither released nor lost by its unload. */
  predicate HeldAfter(calls: seq<Call>, id: int, m: Module) {
    exists i :: 0 <= i < |calls| && calls[i] == Hold(id, m) && Kept(calls, i, id, m)
  }

  predicate Kept(calls: seq<Call>, i: nat, id: int, m: Module) {
    forall j :: i < j < |calls| ==> calls[j] != Release(id, m) && calls[j] != ModuleUnload(m)
  }

  predicate CreatedBy(calls: seq<Call>, id: int, owner: Module) {
    exists i :: 0 <= i < |calls| && calls[i] == New(id, owner)
  }

  predicate OwnerUnloaded(calls: seq<Call>, id: int, owner: Module) {
    exists i, j :: 0 <= i < j < |calls| && calls[i] == New(id, owner) && calls[j] == ModuleUnload(owner)
  }

  ghost predicate HasHolder(calls: seq<Call>, id: int) {
    exists m :: HeldAfter(calls, id, m)
  }

  /** What the calls alone say of a request: it is alive if and only if its owner was not unloaded and, once it was
      dispatched, somebody holds it. */
  ghost predicate Lived(calls: seq<Call>, id: int, s: State) {
    && CreatedBy(calls, id, s.owner)
    && (Alive(s) <==> !OwnerUnloaded(calls, id, s.owner) && (DispatchCalled(calls, id) ==> HasHolder(calls, id)))
    && (Alive(s) ==> (s.dispatched <==> DispatchCalled(calls, id)) && forall m :: m in s.holds <==> HeldAfter(calls, id, m))
  }

  /** No call was about the request. */
  ghost predicate Unheard(calls: seq<Call>, id: int) {
    && !DispatchCalled(calls, id) && !HasHolder(calls, id) && forall owner :: !CreatedBy(calls, id, owner)
  }

  lemma HeldGrows(calls: seq<Call>, c: Call, id: int, m: Module)
    ensures HeldAfter(calls + [c], id, m) <==>
      c == Hold(id, m) || (HeldAfter(calls, id, m) && c != Release(id, m) && c != ModuleUnload(m))
  {
    var more := calls + [c];
    if HeldAfter(more, id, m) && c != Hold(id, m) {
      var i :| 0 <= i < |more| && more[i] == Hold(id, m) && Kept(more, i, id, m);
      assert calls[i] == Hold(id, m) && more[|calls|] == c;
      forall j | i < j < |calls|
        ensures calls[j] != Release(id, m) && calls[j] != ModuleUnload(m)
      {
        assert more[j] == calls[j];
      }
    }
    if HeldAfter(calls, id, m) && c != Release(id, m) && c != ModuleUnload(m) {
      var i :| 0 <= i < |calls| && calls[i] == Hold(id, m) && Kept(calls, i, id, m);
      assert more[i] == Hold(id, m) && Kept(more, i, id, m);
    }
    if c == Hold(id, m) {
      assert more[|calls|] == Hold(id, m) && Kept(more, |calls|, id, m);
    }
  }

  lemma CallsGrow(calls: seq<Call>, c: Call, id: int, owner: Module)
    ensures DispatchCalled(calls + [c], id) <==> DispatchCalled(calls, id) || c == Dispatch(id)
    ensures CreatedBy(calls + [c], id, owner) <==> CreatedBy(calls, id, owner) || c == New(id, owner)
    ensures OwnerUnloaded(calls + [c], id, owner) <==>
      OwnerUnloaded(calls, id, owner) || (CreatedBy(calls, id, owner) && c == ModuleUnload(owner))
  {
    var more := calls + [c];
    assert more[|calls|] == c && forall i :: 0 <= i < |calls| ==> more[i] == calls[i];
    if OwnerUnloaded(more, id, owner) && !OwnerUnloaded(calls, id, owner) {
      var i, j :| 0 <= i < j < |more| && more[i] == New(id, owner) && more[j] == ModuleUnload(owner);
      assert calls[i] == New(id, owner);
    }
  }

  /** The state of one request after one call, if it was there before. */
  lemma StepAt(w: World, c: Call, id: int)
    requires Good(w) && Enabled(w, c) && id in w.all
    ensures id in Step(w, c).all
    ensures Step(w, c).all[id] ==
      if !Alive(w.all[id]) then w.all[id]
      else if c.ModuleUnload? then Unloaded(w.all[id], c.m)
      else if c.id != id then w.all[id]
      else match c
        case Hold(_, m) => Held(w.all[id], m)
        case Release(_, m) => Released(w.all[id], m)
        case Success(_, m) => Succeeded(w.all[id])
        case _ => Dispatched(w.all[id])
    ensures c.New? ==> c.id != id
    ensures !Alive(w.all[id]) ==> c.ModuleUnload? || c.id != id
  {
    assert Alive(w.all[id]) <==> id in w.requests;
  }

  /** One more call keeps what the calls say of a request. */
  lemma LivedStep(w: World, calls: seq<Call>, c: Call, id: int)
    requires Good(w) && Enabled(w, c) && id in w.all && Lived(calls, id, w.all[id])
    ensures id in Step(w, c).all && Lived(calls + [c], id, Step(w, c).all[id])
  {
    StepAt(w, c, id);
    var s, t := w.all[id], Step(w, c).all[id];
    hide Step, Good, Enabled;
    CallsGrow(calls, c, id, s.owner);
    forall m
      ensures HeldAfter(calls + [c], id, m) <==>
        c == Hold(id, m) || (HeldAfter(calls, id, m) && c != Release(id, m) && c != ModuleUnload(m))
    {
      HeldGrows(calls, c, id, m);
    }
    hide HeldAfter, DispatchCalled, CreatedBy, OwnerUnloaded;
    if Alive(s) {
      AliveStep(calls, c, id, s, t);
    } else {
      assert c != Dispatch(id) && forall m :: c != Hold(id, m);
    }
  }

  lemma AliveStep(calls: seq<Call>, c: Call, id: int, s: State, t: State)
    requires Alive(s) && Lived(calls, id, s)
    requires t ==
      if c.ModuleUnload? then Unloaded(s, c.m)
      else if c.id != id then s
      else match c
        case Hold(_, m) => Held(s, m)
        case Release(_, m) => Released(s, m)
        case Success(_, m) => Succeeded(s)
        case _ => Dispatched(s)
    requires c.New? ==> c.id != id
    requires s.dispatched ==> s.holds != {}
    requires forall m :: HeldAfter(calls + [c], id, m) <==>
      c == Hold(id, m) || (HeldAfter(calls, id, m) && c != Release(id, m) && c != ModuleUnload(m))
    requires DispatchCalled(calls + [c], id) <==> DispatchCalled(calls, id) || c == Dispatch(id)
    requires CreatedBy(calls + [c], id, s.owner) <==> CreatedBy(calls, id, s.owner) || c == New(id, s.owner)
    requires OwnerUnloaded(calls + [c], id, s.owner) <==>
      OwnerUnloaded(calls, id, s.owner) || (CreatedBy(calls, id, s.owner) && c == ModuleUnload(s.owner))
    ensures Lived(calls + [c], id, t)
  {
    hide HeldAfter, DispatchCalled, CreatedBy, OwnerUnloaded;
    var left := if c.ModuleUnload? || (c.Release? && c.id == id) then s.holds - {c.m} else if c.Hold? && c.id == id then s.holds + {c.m} else s.holds;
    assert forall m :: m in left <==> HeldAfter(calls + [c], id, m);
    Someone(left);
    assert left == {} <==> !HasHolder(calls + [c], id);
  }

  lemma Someone(holds: set<Module>)
    ensures holds == {} <==> !exists m :: m in holds
  {
    if !exists m :: m in holds {
      assert holds == {};
    }
  }

  /** Over every run, from the calls alone: which requests are alive, and what nobody called for is not there. */
  lemma {:induction false} AliveExactly(calls: seq<Call>)
    requires CanRun(EMPTY, calls)
    ensures forall id :: id in Run(EMPTY, calls).all ==> Lived(calls, id, Run(EMPTY, calls).all[id])
    ensures forall id :: id !in Run(EMPTY, calls).all ==> Unheard(calls, id)
    decreases |calls|
  {
    if calls != [] {
      var n := |calls| - 1;
      var before, c := calls[..n], calls[n];
      assert calls == before + [c];
      AliveExactly(before);
      EveryRun(before);
      var w := Run(EMPTY, before);
      assert Run(EMPTY, calls) == Step(w, c) && Good(w) && Enabled(w, c);
      hide Run, CanRun, Lived, Unheard, Good, Step, Enabled;
      forall id
        ensures id in Step(w, c).all ==> Lived(calls, id, Step(w, c).all[id])
        ensures id !in Step(w, c).all ==> Unheard(calls, id)
      {
        if id in w.all {
          LivedStep(w, before, c, id);
        } else {
          NewStep(w, before, c, id);
        }
      }
    }
  }

  lemma NewStep(w: World, calls: seq<Call>, c: Call, id: int)
    requires Good(w) && Enabled(w, c) && id !in w.all && Unheard(calls, id)
    ensures id in Step(w, c).all ==> Lived(calls + [c], id, Step(w, c).all[id])
    ensures id !in Step(w, c).all ==> Unheard(calls + [c], id)
  {
    forall m: Module
      ensures !HeldAfter(calls + [c], id, m)
      ensures CreatedBy(calls + [c], id, m) <==> c == New(id, m)
      ensures !OwnerUnloaded(calls + [c], id, m)
    {
      HeldGrows(calls, c, id, m);
      CallsGrow(calls, c, id, m);
      assert !OwnerUnloaded(calls, id, m) by {
        assert !CreatedBy(calls, id, m);
      }
    }
    CallsGrow(calls, c, id, 0);
    hide HeldAfter, DispatchCalled, CreatedBy, OwnerUnloaded;
  }

  /** An unload ends the requests of that module, and those that were dispatched and held by it alone. */
  lemma UnloadEndsExactly(w: World, m: Module, id: int)
    requires Good(w) && id in w.requests
    ensures id in w.all && id in Step(w, ModuleUnload(m)).all
    ensures !Alive(Step(w, ModuleUnload(m)).all[id]) <==> w.all[id].owner == m || (w.all[id].dispatched && w.all[id].holds == {m})
  {
    var s := w.all[id];
    assert Alive(s) && Consistent(s);
    assert s.holds - {m} == {} && s.holds != {} <==> s.holds == {m};
  }
}
