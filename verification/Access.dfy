/** Access chains, access groups and the order of privileges: src/regchannel.cpp and src/access.cpp. */
module Access {
  import opened Wrappers
  import Glob

  const MAX_DEPTH: nat := 4

  /** An access entry: an account, or else a mask; privs is what its provider's HasPriv grants. */
  datatype Entry = Entry(account: Option<nat>, mask: string, privs: set<string>)

  datatype UserNames = UserNames(nick: string, displayedMask: string)
  datatype AccountNames = AccountNames(account: nat, aliases: seq<string>)

  /** Whom a search is made for. */
  datatype Subject = Subject(user: Option<UserNames>, account: Option<AccountNames>)

  /** The registered channels by folded name, each with its access list. */
  datatype Network = Network(
    rule: Glob.CaseRule,
    fold: string -> string,
    channelName: string -> bool,
    access: map<string, seq<Entry>>
  )
  {
    function Find(name: string): (ci: Option<string>)
      ensures ci.Some? ==> ci.value in access
    {
      if fold(name) in access then Some(fold(name)) else None
    }

    /** The channel that an entry which does not match leads to. */
    function Next(e: Entry): (ci: Option<string>)
      ensures ci.Some? ==> ci.value in access
    {
      if e.account.None? && channelName(e.mask) then Find(e.mask) else None
    }
  }

  // ---------- one entry ----------

  predicate IsMask(mask: string) {
    exists i :: 0 <= i < |mask| && mask[i] in "!@?*"
  }

  ghost predicate Fits(rule: Glob.CaseRule, name: string, mask: string) {
    Glob.Globs(rule, name, Glob.EffectiveMask(mask))
  }

  ghost predicate Matched(rule: Glob.CaseRule, e: Entry, who: Subject) {
    if e.account.Some? then
      who.account.Some? && who.account.value.account == e.account.value
    else
      || (who.user.Some? && IsMask(e.mask) && Fits(rule, who.user.value.nick, e.mask))
      || (who.user.Some? && Fits(rule, who.user.value.displayedMask, e.mask))
      || (who.account.Some? && exists i :: 0 <= i < |who.account.value.aliases| && Fits(rule, who.account.value.aliases[i], e.mask))
  }

  predicate Short(s: string) {
    |s| < Glob.NPOS
  }

  ghost predicate Named(rule: Glob.CaseRule, who: Subject) {
    && (who.user.Some? ==> rule.NulFree(who.user.value.nick) && Short(who.user.value.nick))
    && (who.user.Some? ==> rule.NulFree(who.user.value.displayedMask) && Short(who.user.value.displayedMask))
    && (who.account.Some? ==> forall i :: 0 <= i < |who.account.value.aliases| ==>
         rule.NulFree(who.account.value.aliases[i]) && Short(who.account.value.aliases[i]))
  }

  method Matches(net: Network, e: Entry, who: Subject) returns (r: bool, next: Option<string>)
    requires Named(net.rule, who) && Short(e.mask)
    ensures r <==> Matched(net.rule, e, who)
    ensures next == if r then None else net.Next(e)
    ensures next.Some? <==> !r && e.account.None? && net.channelName(e.mask) && net.fold(e.mask) in net.access
    ensures next.Some? ==> next.value == net.fold(e.mask)
  {
    next := None;
    if e.account.Some? {
      r := who.account.Some? && who.account.value.account == e.account.value;
      return;
    }
    if who.user.Some? {
      var user := who.user.value;
      if IsMask(e.mask) {
        r := Glob.Match(user.nick, e.mask, net.rule);
        if r {
          return;
        }
      }
      r := Glob.Match(user.displayedMask, e.mask, net.rule);
      if r {
        return;
      }
    }
    if who.account.Some? {
      var aliases := who.account.value.aliases;
      for i := 0 to |aliases|
        invariant forall k :: 0 <= k < i ==> !Fits(net.rule, aliases[k], e.mask)
      {
        r := Glob.Match(aliases[i], e.mask, net.rule);
        if r {
          return;
        }
      }
    }
    r := false;
    if net.channelName(e.mask) {
      next := net.Find(e.mask);
    }
  }

  /** Wildcards aside, who matches: by an account entry, that account alone; by a mask that could be a nick, whoever is
      logged in to an account that owns the nick or is displayed just so, but not whoever merely uses the nick. */
  lemma WhoMatches(rule: Glob.CaseRule, e: Entry, who: Subject)
    ensures e.account.Some? ==> (Matched(rule, e, who) <==> who.account.Some? && e.account == Some(who.account.value.account))
    ensures e.account.None? && !IsMask(e.mask) ==>
      (Matched(rule, e, who) <==>
        || (who.user.Some? && rule.Same(who.user.value.displayedMask, e.mask))
        || (who.account.Some? && exists i :: 0 <= i < |who.account.value.aliases| && rule.Same(who.account.value.aliases[i], e.mask)))
  {
    if e.account.None? && !IsMask(e.mask) {
      assert forall i :: 0 <= i < |e.mask| ==> e.mask[i] != '*' && e.mask[i] != '?';
      forall name: string
        ensures Fits(rule, name, e.mask) <==> rule.Same(name, e.mask)
      {
        Glob.LiteralMask(rule, name, e.mask);
      }
    }
  }

  // ---------- the search ----------

  type Path = seq<Entry>

  function Prefixed(path: Path, found: seq<Path>): (r: seq<Path>)
    ensures |r| == |found| && forall i :: 0 <= i < |r| ==> r[i] == path + found[i]
  {
    if found == [] then [] else [path + found[0]] + Prefixed(path, found[1..])
  }

  /** The paths that a search at this depth collects from a list, in its order. */
  ghost function Chains(net: Network, who: Subject, list: seq<Entry>, depth: nat): seq<Path>
    decreases MAX_DEPTH + 1 - depth, |list|
  {
    if depth > MAX_DEPTH || list == [] then [] else ChainsAt(net, who, list[0], depth) + Chains(net, who, list[1..], depth)
  }

  ghost function ChainsAt(net: Network, who: Subject, e: Entry, depth: nat): seq<Path>
    requires depth <= MAX_DEPTH
    decreases MAX_DEPTH + 1 - depth, 0
  {
    if Matched(net.rule, e, who) then [[e]]
    else if net.Next(e).Some? then Prefixed([e], Chains(net, who, net.access[net.Next(e).value], depth + 1))
    else []
  }

  /** A chain: entries that do not match but lead to the channel of the following one, and a last one that matches. */
  ghost predicate IsChain(net: Network, who: Subject, list: seq<Entry>, c: Path)
    decreases |c|
  {
    && c != []
    && c[0] in list
    && if |c| == 1 then Matched(net.rule, c[0], who)
       else !Matched(net.rule, c[0], who) && net.Next(c[0]).Some? && IsChain(net, who, net.access[net.Next(c[0]).value], c[1..])
  }

  lemma {:induction false} ChainsExact(net: Network, who: Subject, list: seq<Entry>, depth: nat, c: Path)
    ensures c in Chains(net, who, list, depth) <==> IsChain(net, who, list, c) && depth + |c| <= MAX_DEPTH + 1
    decreases MAX_DEPTH + 1 - depth, |list|
  {
    if depth <= MAX_DEPTH && list != [] {
      ChainsExact(net, who, list[1..], depth, c);
      ChainsAtExact(net, who, list[0], depth, c);
      assert list == [list[0]] + list[1..];
    }
  }

  lemma {:induction false} ChainsAtExact(net: Network, who: Subject, e: Entry, depth: nat, c: Path)
    requires depth <= MAX_DEPTH
    ensures c in ChainsAt(net, who, e, depth) <==> IsChain(net, who, [e], c) && depth + |c| <= MAX_DEPTH + 1
    decreases MAX_DEPTH + 1 - depth, 0
  {
    if Matched(net.rule, e, who) {
      assert c in [[e]] <==> c == [e];
      assert c != [] && c[0] in [e] && |c| == 1 ==> c == [e];
    } else if net.Next(e).Some? {
      var next := net.access[net.Next(e).value];
      ChainOfNext(net, who, e, c);
      assert ChainsAt(net, who, e, depth) == Prefixed([e], Chains(net, who, next, depth + 1));
      hide *;
      if c != [] {
        ChainsExact(net, who, next, depth + 1, c[1..]);
      }
      PrefixedMember(e, Chains(net, who, next, depth + 1), c);
    }
  }

  lemma ChainOfNext(net: Network, who: Subject, e: Entry, c: Path)
    requires !Matched(net.rule, e, who) && net.Next(e).Some?
    ensures IsChain(net, who, [e], c) <==> c != [] && c[0] == e && IsChain(net, who, net.access[net.Next(e).value], c[1..])
  {
    hide Matched;
  }

  lemma PrefixedMember(e: Entry, found: seq<Path>, c: Path)
    ensures c in Prefixed([e], found) <==> c != [] && c[0] == e && c[1..] in found
  {
    if c != [] && c[0] == e && c[1..] in found {
      var i :| 0 <= i < |found| && found[i] == c[1..];
      assert Prefixed([e], found)[i] == c;
    }
    if c in Prefixed([e], found) {
      var i :| 0 <= i < |found| && Prefixed([e], found)[i] == c;
      assert c == [e] + found[i] && c[1..] == found[i];
    }
  }

  // ---------- access groups ----------

  /** ::HasPriv of one path, without hooks. */
  predicate PathHas(path: Path, name: string) {
    path != [] && forall i :: 0 <= i < |path| ==> name in path[i].privs
  }

  method PathHasPriv(path: Path, name: string) returns (r: bool)
    ensures r <==> PathHas(path, name)
  {
    if path == [] {
      return false;
    }
    for i := 0 to |path|
      invariant forall k :: 0 <= k < i ==> name in path[k].privs
    {
      if name !in path[i].privs {
        return false;
      }
    }
    return true;
  }

  predicate IsAuto(name: string) {
    |name| >= 4 && name[..4] == "AUTO"
  }

  /** What AccessGroup::HasPriv decides; enabled holds the privileges whose level is not ACCESS_INVALID. */
  predicate GroupHas(superAdmin: bool, founder: bool, enabled: set<string>, paths: seq<Path>, name: string) {
    || superAdmin
    || (name in enabled && founder && (IsAuto(name) ==> paths == []))
    || (name in enabled && exists i :: 0 <= i < |paths| && PathHas(paths[i], name))
  }

  class AccessGroup {
    var paths: seq<Path>
    const superAdmin: bool
    const founder: bool
    /** None while the group has no channel. */
    const enabled: Option<set<string>>

    constructor (superAdmin: bool, founder: bool, enabled: Option<set<string>>)
      ensures paths == [] && this.superAdmin == superAdmin && this.founder == founder && this.enabled == enabled
    {
      paths := [];
      this.superAdmin, this.founder, this.enabled := superAdmin, founder, enabled;
    }

    method FindMatchesRecurse(net: Network, ci: string, who: Subject, depth: nat, path: Path)
      requires Searchable(net, who) && ci in net.access
      modifies this`paths
      ensures paths == old(paths) + Prefixed(path, Chains(net, who, net.access[ci], depth))
      decreases MAX_DEPTH + 1 - depth, 1
    {
      if depth > MAX_DEPTH {
        return;
      }
      var list := net.access[ci];
      assert list[0..] == list;
      hide Prefixed, Searchable, Chains;
      for i := 0 to |list|
        invariant old(paths) + Prefixed(path, Chains(net, who, list, depth)) == paths + Prefixed(path, Chains(net, who, list[i..], depth))
      {
        ChainsStep(net, who, list, i, depth, path, paths);
        Try(net, ci, i, who, depth, path);
      }
      ChainsEnd(net, who, list, depth, path, paths);
    }

    /** FindMatches and the founder test are what AccessFor fills a new group with. */
    method FindMatches(net: Network, ci: string, who: Subject)
      requires Searchable(net, who) && ci in net.access
      modifies this`paths
      ensures paths == old(paths) + Chains(net, who, net.access[ci], 0)
    {
      FindMatchesRecurse(net, ci, who, 0, []);
      PrefixedByNone(Chains(net, who, net.access[ci], 0));
    }

    /** One round of the loop over the access list. */
    method Try(net: Network, ci: string, i: nat, who: Subject, depth: nat, path: Path)
      requires Searchable(net, who) && ci in net.access && i < |net.access[ci]| && depth <= MAX_DEPTH
      modifies this`paths
      ensures paths == old(paths) + Prefixed(path, ChainsAt(net, who, net.access[ci][i], depth))
      decreases MAX_DEPTH + 1 - depth, 0
    {
      var e := net.access[ci][i];
      var matched, next := Matches(net, e, who);
      hide Chains, Matched;
      if matched {
        paths := paths + [path + [e]];
      } else if next.Some? {
        FindMatchesRecurse(net, next.value, who, depth + 1, path + [e]);
        PrefixedTwice(path, e, Chains(net, who, net.access[next.value], depth + 1));
      }
    }

    /** AccessGroup::HasPriv. */
    method HasPriv(name: string) returns (r: bool)
      ensures superAdmin ==> r
      ensures !superAdmin && (enabled.None? || name !in enabled.value) ==> !r
      ensures r <==> GroupHas(superAdmin, founder, if enabled.Some? then enabled.value else {}, paths, name)
    {
      if superAdmin {
        return true;
      } else if enabled.None? || name !in enabled.value {
        return false;
      }
      var autoMode := IsAuto(name);
      if (!autoMode || paths == []) && founder {
        return true;
      }
      var i := |paths|;
      while i > 0
        invariant 0 <= i <= |paths|
        invariant forall k :: i <= k < |paths| ==> !PathHas(paths[k], name)
      {
        var has := PathHasPriv(paths[i - 1], name);
        if has {
          return true;
        }
        i := i - 1;
      }
      return false;
    }

    ghost predicate Has(name: string)
      reads this
    {
      GroupHas(superAdmin, founder, if enabled.Some? then enabled.value else {}, paths, name)
    }

    /** Super admins above founders above all others, who stand as their privileges do. */
    ghost function Weight(privs: seq<Privilege>): nat
      reads this
    {
      if superAdmin then |privs| + 2
      else if founder then |privs| + 1
      else Standing(privs, Held(privs))
    }

    ghost function Held(privs: seq<Privilege>): set<string>
      reads this
    {
      set p | p in privs && Has(p.name) :: p.name
    }

    /** AccessGroup::operator>. */
    method GreaterThan(other: AccessGroup, privs: seq<Privilege>) returns (r: bool)
      ensures r <==> Weight(privs) > other.Weight(privs)
    {
      if other.superAdmin {
        return false;
      } else if superAdmin {
        return true;
      } else if other.founder {
        return false;
      } else if founder {
        return true;
      }
      hide Standing, GroupHas;
      ghost var mine, theirs := Held(privs), other.Held(privs);
      var i := |privs|;
      while i > 0
        invariant 0 <= i <= |privs|
        invariant forall k :: i <= k < |privs| ==> privs[k].name !in mine && privs[k].name !in theirs
      {
        var thisP := HasPriv(privs[i - 1].name);
        var otherP := other.HasPriv(privs[i - 1].name);
        assert (privs[i - 1].name in mine <==> thisP) && (privs[i - 1].name in theirs <==> otherP) by {
          assert privs[i - 1] in privs;
        }
        TopDecides(privs, mine, theirs, i);
        if thisP || otherP {
          return thisP && !otherP;
        }
        i := i - 1;
      }
      TopDecides(privs, mine, theirs, 0);
      return false;
    }

    /** AccessGroup::operator<. */
    method LessThan(other: AccessGroup, privs: seq<Privilege>) returns (r: bool)
      ensures r <==> Weight(privs) < other.Weight(privs)
    {
      if superAdmin {
        return false;
      } else if other.superAdmin {
        return true;
      } else if founder {
        return false;
      } else if other.founder {
        return true;
      }
      hide Standing, GroupHas;
      ghost var mine, theirs := Held(privs), other.Held(privs);
      var i := |privs|;
      while i > 0
        invariant 0 <= i <= |privs|
        invariant forall k :: i <= k < |privs| ==> privs[k].name !in mine && privs[k].name !in theirs
      {
        var thisP := HasPriv(privs[i - 1].name);
        var otherP := other.HasPriv(privs[i - 1].name);
        assert (privs[i - 1].name in mine <==> thisP) && (privs[i - 1].name in theirs <==> otherP) by {
          assert privs[i - 1] in privs;
        }
        TopDecides(privs, mine, theirs, i);
        if thisP || otherP {
          return !thisP && otherP;
        }
        i := i - 1;
      }
      TopDecides(privs, mine, theirs, 0);
      return false;
    }
  }

  lemma PrefixedJoin(path: Path, a: seq<Path>, b: seq<Path>)
    ensures Prefixed(path, a + b) == Prefixed(path, a) + Prefixed(path, b)
  {
  }

  lemma PrefixedTwice(path: Path, e: Entry, found: seq<Path>)
    ensures Prefixed(path, Prefixed([e], found)) == Prefixed(path + [e], found)
  {
    forall i | 0 <= i < |found|
      ensures Prefixed(path, Prefixed([e], found))[i] == Prefixed(path + [e], found)[i]
    {
      assert path + ([e] + found[i]) == path + [e] + found[i];
    }
  }

  ghost predicate Searchable(net: Network, who: Subject) {
    Named(net.rule, who) && forall c, i :: c in net.access && 0 <= i < |net.access[c]| ==> Short(net.access[c][i].mask)
  }

  lemma ChainsStep(net: Network, who: Subject, list: seq<Entry>, i: nat, depth: nat, path: Path, paths: seq<Path>)
    requires i < |list| && depth <= MAX_DEPTH
    ensures paths + Prefixed(path, Chains(net, who, list[i..], depth)) ==
      paths + Prefixed(path, ChainsAt(net, who, list[i], depth)) + Prefixed(path, Chains(net, who, list[i + 1..], depth))
  {
    hide Prefixed, ChainsAt;
    assert list[i..][0] == list[i] && list[i..][1..] == list[i + 1..];
    PrefixedJoin(path, ChainsAt(net, who, list[i], depth), Chains(net, who, list[i + 1..], depth));
  }

  /** The paths come in the order of the entries they begin with. */
  lemma {:induction false} ChainsInOrder(net: Network, who: Subject, a: seq<Entry>, b: seq<Entry>, depth: nat)
    ensures Chains(net, who, a + b, depth) == Chains(net, who, a, depth) + Chains(net, who, b, depth)
    decreases |a|
  {
    hide ChainsAt;
    if a == [] {
      assert a + b == b;
    } else {
      assert (a + b)[0] == a[0] && (a + b)[1..] == a[1..] + b;
      ChainsInOrder(net, who, a[1..], b, depth);
    }
  }

  lemma ChainsEnd(net: Network, who: Subject, list: seq<Entry>, depth: nat, path: Path, paths: seq<Path>)
    ensures paths + Prefixed(path, Chains(net, who, list[|list|..], depth)) == paths
  {
    assert list[|list|..] == [];
  }

  lemma {:induction false} PrefixedByNone(found: seq<Path>)
    ensures Prefixed([], found) == found
  {
    assert forall i :: 0 <= i < |found| ==> [] + found[i] == found[i];
  }

  // ---------- what a group grants ----------

  /** A chain that a search finds: one of at most five entries. */
  ghost predicate IsFound(net: Network, who: Subject, ci: string, c: Path)
    requires ci in net.access
  {
    IsChain(net, who, net.access[ci], c) && |c| <= 5
  }

  /** The decision for a subject who is neither founder nor super admin, in terms of chains. */
  ghost predicate Granted(net: Network, who: Subject, ci: string, enabled: set<string>, name: string)
    requires ci in net.access
  {
    name in enabled && exists c: Path :: IsFound(net, who, ci, c) && forall i :: 0 <= i < |c| ==> name in c[i].privs
  }

  lemma GroupGrants(net: Network, who: Subject, ci: string, enabled: set<string>, name: string)
    requires ci in net.access
    ensures GroupHas(false, false, enabled, Chains(net, who, net.access[ci], 0), name) <==> Granted(net, who, ci, enabled, name)
  {
    var paths := Chains(net, who, net.access[ci], 0);
    forall i | 0 <= i < |paths|
      ensures IsChain(net, who, net.access[ci], paths[i]) && |paths[i]| <= MAX_DEPTH + 1
    {
      ChainsExact(net, who, net.access[ci], 0, paths[i]);
    }
    forall c | IsFound(net, who, ci, c)
      ensures exists i :: 0 <= i < |paths| && paths[i] == c
    {
      ChainsExact(net, who, net.access[ci], 0, c);
    }
  }

  /** Who has a privilege: super admins every one, enabled or not; nobody else one that is not enabled; founders every
      enabled one, but an automatic one only by a chain or if they are on no list at all; others by a chain only. */
  lemma DecidesExactly(net: Network, who: Subject, ci: string, superAdmin: bool, founder: bool, enabled: set<string>, name: string)
    requires ci in net.access
    ensures var has := GroupHas(superAdmin, founder, enabled, Chains(net, who, net.access[ci], 0), name);
      if superAdmin then has
      else if name !in enabled then !has
      else if founder && !("AUTO" <= name) then has
      else has <==> Granted(net, who, ci, enabled, name) || (founder && !exists c: Path :: IsFound(net, who, ci, c))
  {
    GroupGrants(net, who, ci, enabled, name);
    var paths := Chains(net, who, net.access[ci], 0);
    if paths != [] {
      ChainsExact(net, who, net.access[ci], 0, paths[0]);
      assert IsFound(net, who, ci, paths[0]);
    }
    forall c | IsFound(net, who, ci, c)
      ensures c in paths
    {
      ChainsExact(net, who, net.access[ci], 0, c);
    }
    hide Chains;
  }

  /** Outweighing others by the flag means to lack nothing that they have. */
  lemma SuperAdminLacksNothing(a: AccessGroup, b: AccessGroup, privs: seq<Privilege>, name: string)
    requires a.superAdmin && !b.superAdmin
    ensures a.Weight(privs) > b.Weight(privs) && a.Has(name)
  {
  }

  /** A founder outweighs whoever is neither, and yet lacks automatic privileges that others hold: exactly those that no
      path grants him, once he is on a list. */
  lemma FounderLacks(a: AccessGroup, b: AccessGroup, privs: seq<Privilege>, name: string)
    requires a.founder && !a.superAdmin && !b.founder && !b.superAdmin && a.enabled == b.enabled
    ensures a.Weight(privs) > b.Weight(privs)
    ensures b.Has(name) && !a.Has(name) <==>
      b.Has(name) && "AUTO" <= name && a.paths != [] &&
      forall i :: 0 <= i < |a.paths| ==> a.paths[i] == [] || exists k :: 0 <= k < |a.paths[i]| && name !in a.paths[i][k].privs
  {
    hide Standing;
    assert IsAuto(name) <==> "AUTO" <= name;
    forall i | 0 <= i < |a.paths|
      ensures !PathHas(a.paths[i], name) <==> a.paths[i] == [] || exists k :: 0 <= k < |a.paths[i]| && name !in a.paths[i][k].privs
    {
    }
  }

  /** Access lists that only grow. */
  ghost predicate Extends(net': Network, net: Network) {
    && net' == net.(access := net'.access)
    && net'.access.Keys == net.access.Keys
    && forall c, i :: c in net.access && 0 <= i < |net.access[c]| ==> net.access[c][i] in net'.access[c]
  }

  lemma {:induction false} ChainStays(net: Network, net': Network, who: Subject, ci: string, c: Path)
    requires Extends(net', net) && ci in net.access && IsChain(net, who, net.access[ci], c)
    ensures IsChain(net', who, net'.access[ci], c)
    decreases |c|
  {
    assert net'.Next(c[0]) == net.Next(c[0]);
    if |c| > 1 {
      ChainStays(net, net', who, net.Next(c[0]).value, c[1..]);
    }
  }

  /** Adding entries anywhere never takes a privilege from a subject who is not the founder. */
  lemma EntriesNeverRevoke(net: Network, net': Network, who: Subject, ci: string, superAdmin: bool, enabled: set<string>, name: string)
    requires Extends(net', net) && ci in net.access
    requires GroupHas(superAdmin, false, enabled, Chains(net, who, net.access[ci], 0), name)
    ensures GroupHas(superAdmin, false, enabled, Chains(net', who, net'.access[ci], 0), name)
  {
    hide Chains, IsChain;
    if !superAdmin {
      GroupGrants(net, who, ci, enabled, name);
      GroupGrants(net', who, ci, enabled, name);
      var c: Path :| IsFound(net, who, ci, c) && forall i :: 0 <= i < |c| ==> name in c[i].privs;
      ChainStays(net, net', who, ci, c);
      assert IsFound(net', who, ci, c);
    }
  }

  /** The founder keeps it too, except an automatic one that came with having no entry at all. */
  lemma WhenFounderLoses(net: Network, net': Network, who: Subject, ci: string, superAdmin: bool, enabled: set<string>, name: string)
    requires Extends(net', net) && ci in net.access
    requires GroupHas(superAdmin, true, enabled, Chains(net, who, net.access[ci], 0), name)
    ensures !GroupHas(superAdmin, true, enabled, Chains(net', who, net'.access[ci], 0), name) <==>
      (!superAdmin && IsAuto(name) && Chains(net, who, net.access[ci], 0) == [] && Chains(net', who, net'.access[ci], 0) != []
       && !Granted(net', who, ci, enabled, name))
  {
    GroupGrants(net, who, ci, enabled, name);
    GroupGrants(net', who, ci, enabled, name);
    if Chains(net, who, net.access[ci], 0) != [] {
      var c := Chains(net, who, net.access[ci], 0)[0];
      ChainsExact(net, who, net.access[ci], 0, c);
      ChainStays(net, net', who, ci, c);
      ChainsExact(net', who, net'.access[ci], 0, c);
      if Granted(net, who, ci, enabled, name) {
        EntriesNeverRevoke(net, net', who, ci, false, enabled, name);
      }
    }
  }

  /** A founder of a channel with an empty list who adds a first entry for himself without the privilege. */
  lemma FounderLosesAutoOp(net: Network, net': Network)
    requires net.access == map["#c" := []] && net' == net.(access := map["#c" := [Entry(Some(1), "", {})]])
    ensures var who := Subject(None, Some(AccountNames(1, [])));
      && GroupHas(false, true, {"AUTOOP"}, Chains(net, who, net.access["#c"], 0), "AUTOOP")
      && !GroupHas(false, true, {"AUTOOP"}, Chains(net', who, net'.access["#c"], 0), "AUTOOP")
  {
    var who := Subject(None, Some(AccountNames(1, [])));
    var e := Entry(Some(1), "", {});
    assert Chains(net', who, [e], 0) == [[e]] + Chains(net', who, [], 0);
    assert !PathHas([e], "AUTOOP") by {
      assert "AUTOOP" !in [e][0].privs;
    }
  }

  // ---------- the order of privileges ----------

  datatype Privilege = Privilege(name: string, rank: int)

  /** PrivilegeManager. */
  class PrivilegeManager {
    var privileges: seq<Privilege>

    ghost predicate Ranked()
      reads this
    {
      forall i, j :: 0 <= i < j < |privileges| ==> privileges[i].rank <= privileges[j].rank
    }

    constructor ()
      ensures privileges == [] && Ranked()
    {
      privileges := [];
    }

    /** The new privilege stands behind those of its rank and before the higher ones. */
    method AddPrivilege(p: Privilege)
      requires Ranked()
      modifies this
      ensures Ranked()
      ensures exists k :: (
        && 0 <= k <= |old(privileges)|
        && privileges == old(privileges)[..k] + [p] + old(privileges)[k..]
        && (forall i :: 0 <= i < k ==> old(privileges)[i].rank <= p.rank)
        && (forall i :: k <= i < |old(privileges)| ==> old(privileges)[i].rank > p.rank))
    {
      var i := 0;
      while i < |privileges|
        invariant 0 <= i <= |privileges| && privileges == old(privileges)
        invariant forall k :: 0 <= k < i ==> privileges[k].rank <= p.rank
      {
        if privileges[i].rank > p.rank {
          break;
        }
        i := i + 1;
      }
      privileges := privileges[..i] + [p] + privileges[i..];
      assert privileges == old(privileges)[..i] + [p] + old(privileges)[i..];
    }
  }

  /** One more than the place of the highest privilege held, or 0 without any. */
  function Standing(privs: seq<Privilege>, held: set<string>): (r: nat)
    ensures r <= |privs|
    ensures r > 0 ==> privs[r - 1].name in held
    ensures forall i :: r <= i < |privs| ==> privs[i].name !in held
  {
    if privs == [] then 0
    else if privs[|privs| - 1].name in held then |privs|
    else Standing(privs[..|privs| - 1], held)
  }

  /** With nothing held from place i on, the privilege before it decides, if anyone holds it. */
  lemma TopDecides(privs: seq<Privilege>, a: set<string>, b: set<string>, i: nat)
    requires i <= |privs| && forall k :: i <= k < |privs| ==> privs[k].name !in a && privs[k].name !in b
    ensures i == 0 ==> Standing(privs, a) == Standing(privs, b)
    ensures i > 0 && privs[i - 1].name in a && privs[i - 1].name in b ==> Standing(privs, a) == Standing(privs, b)
    ensures i > 0 && privs[i - 1].name in a && privs[i - 1].name !in b ==> Standing(privs, a) > Standing(privs, b)
    ensures i > 0 && privs[i - 1].name !in a && privs[i - 1].name in b ==> Standing(privs, a) < Standing(privs, b)
  {
  }

  /** ChanAccess::operator> and, for groups, the loop of AccessGroup::operator>. */
  method Greater(privs: seq<Privilege>, a: set<string>, b: set<string>) returns (r: bool)
    ensures r <==> Standing(privs, a) > Standing(privs, b)
  {
    var i := |privs|;
    while i > 0
      invariant 0 <= i <= |privs|
      invariant forall k :: i <= k < |privs| ==> privs[k].name !in a && privs[k].name !in b
    {
      var inA, inB := privs[i - 1].name in a, privs[i - 1].name in b;
      if inA || inB {
        return inA && !inB;
      }
      i := i - 1;
    }
    return false;
  }

  method Less(privs: seq<Privilege>, a: set<string>, b: set<string>) returns (r: bool)
    ensures r <==> Standing(privs, a) < Standing(privs, b)
  {
    var i := |privs|;
    while i > 0
      invariant 0 <= i <= |privs|
      invariant forall k :: i <= k < |privs| ==> privs[k].name !in a && privs[k].name !in b
    {
      var inA, inB := privs[i - 1].name in a, privs[i - 1].name in b;
      if inA || inB {
        return !inA && inB;
      }
      i := i - 1;
    }
    return false;
  }

  method HighestInPath(privs: seq<Privilege>, path: Path) returns (highest: Option<Entry>)
    ensures highest.None? <==> path == []
    ensures highest.Some? ==> highest.value in path && forall e :: e in path ==> Standing(privs, e.privs) <= Standing(privs, highest.value.privs)
  {
    highest := None;
    for i := 0 to |path|
      invariant highest.None? <==> i == 0
      invariant highest.Some? ==> highest.value in path
      invariant highest.Some? ==> forall k :: 0 <= k < i ==> Standing(privs, path[k].privs) <= Standing(privs, highest.value.privs)
    {
      var above := true;
      if highest.Some? {
        above := Greater(privs, path[i].privs, highest.value.privs);
      }
      if above {
        highest := Some(path[i]);
      }
    }
  }

  /** AccessGroup::Highest over the paths of a search, none of which is empty. */
  method Highest(privs: seq<Privilege>, paths: seq<Path>) returns (highest: Option<Entry>)
    requires forall i :: 0 <= i < |paths| ==> paths[i] != []
    ensures highest.None? <==> paths == []
    ensures highest.Some? ==> exists i :: 0 <= i < |paths| && highest.value in paths[i]
    ensures highest.Some? ==> forall i, e :: 0 <= i < |paths| && e in paths[i] ==> Standing(privs, e.privs) <= Standing(privs, highest.value.privs)
  {
    highest := None;
    for i := 0 to |paths|
      invariant highest.None? <==> i == 0
      invariant highest.Some? ==> exists k :: 0 <= k < |paths| && highest.value in paths[k]
      invariant highest.Some? ==> forall k, e :: 0 <= k < i && e in paths[k] ==> Standing(privs, e.privs) <= Standing(privs, highest.value.privs)
    {
      var hip := HighestInPath(privs, paths[i]);
      var above := true;
      if highest.Some? {
        above := Greater(privs, hip.value.privs, highest.value.privs);
      }
      if above {
        highest := hip;
      }
    }
  }

  /** In a ranked list a higher standing means a highest privilege of no lower rank. */
  lemma StandingByRank(privs: seq<Privilege>, a: set<string>, b: set<string>)
    requires forall i, j :: 0 <= i < j < |privs| ==> privs[i].rank <= privs[j].rank
    requires Standing(privs, a) > Standing(privs, b)
    ensures exists p :: p in privs && p.name in a && p.name !in b && forall q :: q in privs && q.name in b ==> q.rank <= p.rank
  {
    var p := privs[Standing(privs, a) - 1];
    assert p in privs && p.name in a;
  }
}
