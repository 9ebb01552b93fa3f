/** Channel references of accounts: src/nickcore.cpp, src/regchannel.cpp and src/access.cpp. */
module References {

  class NickCore {
    var chanaccess: map<ChannelInfo, int>
    var channelcount: int

    constructor ()
      ensures chanaccess == map[] && channelcount == 0
    {
      chanaccess, channelcount := map[], 0;
    }

    method AddChannelReference(ci: ChannelInfo)
      modifies this`chanaccess
      ensures chanaccess == Added(old(chanaccess), ci)
    {
      chanaccess := chanaccess[ci := (if ci in chanaccess then chanaccess[ci] else 0) + 1];
    }

    /** A count that comes down to zero or below is erased. */
    method RemoveChannelReference(ci: ChannelInfo)
      modifies this`chanaccess
      ensures chanaccess == Dropped(old(chanaccess), ci)
    {
      var i := (if ci in chanaccess then chanaccess[ci] else 0) - 1;
      chanaccess := chanaccess[ci := i];
      if i <= 0 {
        chanaccess := chanaccess - {ci};
      }
    }
  }

  function Count(refs: map<ChannelInfo, int>, ci: ChannelInfo): int {
    if ci in refs then refs[ci] else 0
  }

  function Dropped(refs: map<ChannelInfo, int>, c: ChannelInfo): map<ChannelInfo, int> {
    if Count(refs, c) > 1 then refs[c := Count(refs, c) - 1] else refs - {c}
  }

  function Added(refs: map<ChannelInfo, int>, c: ChannelInfo): map<ChannelInfo, int> {
    refs[c := Count(refs, c) + 1]
  }

  class ChannelInfo {
    var founder: NickCore?
    var successor: NickCore?
    var access: seq<ChanAccess>

    constructor ()
      ensures founder == null && successor == null && access == []
    {
      founder, successor, access := null, null, [];
    }
  }

  class ChanAccess {
    var ci: ChannelInfo?
    var nc: NickCore?
    var mask: string

    constructor ()
      ensures ci == null && nc == null && mask == ""
    {
      ci, nc, mask := null, null, "";
    }
  }

  /** The list after the first e in it, if any, is erased. */
  function Without(s: seq<ChanAccess>, e: ChanAccess): (r: seq<ChanAccess>)
    ensures e !in s ==> r == s
    ensures e in s ==> |r| == |s| - 1
    ensures forall x :: x in r ==> x in s
    ensures forall x :: x in s && x != e ==> x in r
  {
    if s == [] then
      []
    else
      assert s == [s[0]] + s[1..];
      if s[0] == e then s[1..] else [s[0]] + Without(s[1..], e)
  }

  predicate Unrepeated(s: seq<ChanAccess>) {
    forall i, j :: 0 <= i < j < |s| ==> s[i] != s[j]
  }

  lemma {:induction false} WithoutDistinct(s: seq<ChanAccess>, e: ChanAccess)
    requires Unrepeated(s)
    ensures e !in Without(s, e)
    ensures Unrepeated(Without(s, e))
  {
    if s != [] {
      var t, r := s[1..], Without(s[1..], e);
      assert forall i :: 0 <= i < |t| ==> t[i] == s[i + 1];
      assert s[0] !in t;
      WithoutDistinct(t, e);
      assert s[0] != e ==> Without(s, e) == [s[0]] + r;
      assert s[0] != e ==> forall i :: 0 <= i < |r| ==> r[i] in t;
    }
  }

  lemma {:induction false} WithoutLast(s: seq<ChanAccess>)
    requires s != []
    requires Unrepeated(s)
    ensures Without(s, s[|s| - 1]) == s[..|s| - 1]
  {
    if |s| > 1 {
      var e := s[|s| - 1];
      assert s[1..][|s[1..]| - 1] == e;
      WithoutLast(s[1..]);
      assert s[..|s| - 1] == [s[0]] + s[1..][..|s| - 2];
    }
  }

  const UINT16 := 0x1_0000

  type Counts = map<NickCore, map<ChannelInfo, int>>

  datatype Naming = Naming(ci: ChannelInfo?, nc: NickCore?)

  /** What the channels and entries refer to, and what the accounts count. */
  datatype Books = Books(
    founder: map<ChannelInfo, NickCore?>,
    successor: map<ChannelInfo, NickCore?>,
    naming: map<ChanAccess, Naming>,
    counts: Counts,
    founded: map<NickCore, int>
  )

  ghost function EntriesFor(naming: map<ChanAccess, Naming>, n: NickCore, c: ChannelInfo): set<ChanAccess> {
    set e | e in naming && naming[e] == Naming(c, n)
  }

  ghost function Founded(founder: map<ChannelInfo, NickCore?>, n: NickCore): set<ChannelInfo> {
    set c | c in founder && founder[c] == n
  }

  function One(b: bool): nat {
    if b then 1 else 0
  }

  /** How often channel c refers to account n. */
  ghost function Uses(b: Books, n: NickCore, c: ChannelInfo): nat
    requires c in b.founder && c in b.successor
  {
    One(b.founder[c] == n) + One(b.successor[c] == n) + |EntriesFor(b.naming, n, c)|
  }

  /** The item of c is the number of its uses, and is absent when there are none. */
  predicate Counted(refs: map<ChannelInfo, int>, c: ChannelInfo, uses: nat) {
    Count(refs, c) == uses && (c in refs <==> uses > 0)
  }

  /** The parties named by channels and entries exist. */
  ghost predicate Closed(b: Books) {
    && b.successor.Keys == b.founder.Keys
    && b.founded.Keys == b.counts.Keys
    && (forall c :: c in b.founder && b.founder[c] != null ==> b.founder[c] in b.counts)
    && (forall c :: c in b.founder && b.successor[c] != null ==> b.successor[c] in b.counts)
    && (forall e :: e in b.naming && b.naming[e].ci != null ==> b.naming[e].ci in b.founder)
    && (forall e :: e in b.naming && b.naming[e].nc != null ==> b.naming[e].nc in b.counts && b.naming[e].ci != null)
  }

  ghost predicate RightAt(b: Books, n: NickCore, c: ChannelInfo)
    requires Closed(b) && n in b.counts && c in b.founder
  {
    Counted(b.counts[n], c, Uses(b, n, c))
  }

  /** The account counts each channel exactly as often as it is referred to, and the channels it founded. */
  ghost predicate Right(b: Books, n: NickCore)
    requires Closed(b) && n in b.counts
  {
    && (forall c :: c in b.founder ==> RightAt(b, n, c))
    && b.counts[n].Keys <= b.founder.Keys
    && b.founded[n] == |Founded(b.founder, n)| % UINT16
  }

  ghost predicate Balanced(b: Books) {
    Closed(b) && (forall n :: n in b.counts ==> Right(b, n))
  }

  function Drop(counts: Counts, n: NickCore?, c: ChannelInfo): Counts {
    if n != null && n in counts then counts[n := Dropped(counts[n], c)] else counts
  }

  function Add(counts: Counts, n: NickCore?, c: ChannelInfo): Counts {
    if n != null && n in counts then counts[n := Added(counts[n], c)] else counts
  }

  function Tally(founded: map<NickCore, int>, n: NickCore?, by_: int): map<NickCore, int> {
    if n != null && n in founded then founded[n := (founded[n] + by_) % UINT16] else founded
  }

  function Shift(refs: map<ChannelInfo, int>, c: ChannelInfo, drop: bool, add: bool): map<ChannelInfo, int> {
    var left := if drop then Dropped(refs, c) else refs;
    if add then Added(left, c) else left
  }

  /** Only the item of the channel concerned moves, and by as much as its uses. */
  lemma Shifted(refs: map<ChannelInfo, int>, c: ChannelInfo, uses: nat, d: ChannelInfo, others: nat, drop: bool, add: bool)
    requires Counted(refs, c, uses) && (drop ==> uses > 0)
    requires Counted(refs, d, others) && (c == d ==> uses == others)
    ensures Counted(Shift(refs, c, drop, add), d, if d == c then uses - One(drop) + One(add) else others)
  {
  }

  /** The account of the old naming drops the channel, then the account of the new one adds it. */
  function Passed(counts: Counts, from: NickCore?, to: NickCore?, c: ChannelInfo): Counts {
    Add(Drop(counts, from, c), to, c)
  }

  lemma PassedAt(counts: Counts, from: NickCore?, to: NickCore?, c: ChannelInfo, n: NickCore)
    requires n in counts
    ensures Passed(counts, from, to, c).Keys == counts.Keys
    ensures Passed(counts, from, to, c)[n] == Shift(counts[n], c, from == n, to == n)
  {
  }

  /** The uses of b' at (n, d) are those of b with one use of channel c passed on. */
  ghost predicate UsePassed(b: Books, b': Books, from: NickCore?, to: NickCore?, c: ChannelInfo, n: NickCore, d: ChannelInfo)
    requires Closed(b) && Closed(b') && c in b.founder && d in b.founder && d in b'.founder
  {
    && (from == n ==> Uses(b, n, c) > 0)
    && Uses(b', n, d) == if d == c then Uses(b, n, c) - One(from == n) + One(to == n) else Uses(b, n, d)
  }

  lemma PassedKeeps(b: Books, b': Books, from: NickCore?, to: NickCore?, c: ChannelInfo, n: NickCore, d: ChannelInfo)
    requires Closed(b) && Closed(b') && b'.founder.Keys == b.founder.Keys
    requires c in b.founder && d in b.founder && n in b.counts && Right(b, n)
    requires b'.counts == Passed(b.counts, from, to, c)
    requires UsePassed(b, b', from, to, c, n, d)
    ensures n in b'.counts && RightAt(b', n, d)
  {
    hide Uses, Counted, Passed, Shift;
    assert RightAt(b, n, d) && RightAt(b, n, c);
    PassedAt(b.counts, from, to, c, n);
    Shifted(b.counts[n], c, Uses(b, n, c), d, Uses(b, n, d), from == n, to == n);
  }

  /** When one use of c is passed on in the uses and in the counts, the books stay balanced. */
  lemma PassedBalances(b: Books, b': Books, from: NickCore?, to: NickCore?, c: ChannelInfo)
    requires Balanced(b) && Closed(b') && b'.founder.Keys == b.founder.Keys && c in b.founder
    requires b'.counts == Passed(b.counts, from, to, c)
    requires forall n, d :: n in b.counts && d in b.founder ==> UsePassed(b, b', from, to, c, n, d)
    requires forall n :: n in b'.founded ==> b'.founded[n] == |Founded(b'.founder, n)| % UINT16
    ensures Balanced(b')
  {
    hide Passed, RightAt, UsePassed;
    forall n | n in b'.counts
      ensures Right(b', n)
    {
      assert n in b.counts by {
        PassedKeys(b.counts, from, to, c);
      }
      PassedWithin(b, from, to, c, n);
      forall d | d in b.founder
        ensures RightAt(b', n, d)
      {
        PassedKeeps(b, b', from, to, c, n, d);
      }
    }
  }

  lemma PassedKeys(counts: Counts, from: NickCore?, to: NickCore?, c: ChannelInfo)
    ensures Passed(counts, from, to, c).Keys == counts.Keys
  {
  }

  lemma PassedWithin(b: Books, from: NickCore?, to: NickCore?, c: ChannelInfo, n: NickCore)
    requires Closed(b) && n in b.counts && c in b.founder && Right(b, n)
    ensures Passed(b.counts, from, to, c).Keys == b.counts.Keys
    ensures Passed(b.counts, from, to, c)[n].Keys <= b.founder.Keys
  {
    PassedAt(b.counts, from, to, c, n);
  }

  function Refounded(b: Books, c: ChannelInfo, nc: NickCore?): Books
    requires c in b.founder
  {
    var f := b.founder[c];
    b.(founder := b.founder[c := nc],
       counts := Passed(b.counts, f, nc, c),
       founded := Tally(Tally(b.founded, f, -1), nc, 1))
  }

  lemma FounderStep(b: Books, c: ChannelInfo, nc: NickCore?)
    requires Balanced(b) && c in b.founder && (nc != null ==> nc in b.counts)
    ensures Balanced(Refounded(b, c, nc))
  {
    hide Passed, Tally, Founded, UsePassed, RightAt;
    FounderClosed(b, c, nc);
    var f, b' := b.founder[c], Refounded(b, c, nc);
    TallyKeys(b.founded, f, nc);
    forall n | n in b.founded
      ensures b'.founded[n] == |Founded(b'.founder, n)| % UINT16
    {
      assert Right(b, n);
      FoundedMoves(b.founder, c, nc, n);
      TallyAt(b.founded, f, nc, n, |Founded(b.founder, n)|);
    }
    forall n, d | n in b.counts && d in b.founder
      ensures UsePassed(b, b', f, nc, c, n, d)
    {
      FounderUses(b, b', c, nc, n, d);
    }
    PassedBalances(b, b', f, nc, c);
  }

  lemma FounderClosed(b: Books, c: ChannelInfo, nc: NickCore?)
    requires Closed(b) && c in b.founder && (nc != null ==> nc in b.counts)
    ensures Closed(Refounded(b, c, nc))
  {
    hide Passed, Tally;
    PassedKeys(b.counts, b.founder[c], nc, c);
    TallyKeys(b.founded, b.founder[c], nc);
  }

  lemma SuccessorClosed(b: Books, c: ChannelInfo, nc: NickCore?)
    requires Closed(b) && c in b.founder && (nc != null ==> nc in b.counts)
    ensures Closed(Resucceeded(b, c, nc))
  {
    hide Passed;
    PassedKeys(b.counts, b.successor[c], nc, c);
  }

  lemma FounderUses(b: Books, b': Books, c: ChannelInfo, nc: NickCore?, n: NickCore, d: ChannelInfo)
    requires Closed(b) && Closed(b') && c in b.founder && d in b.founder
    requires b'.founder == b.founder[c := nc] && b'.successor == b.successor && b'.naming == b.naming
    ensures UsePassed(b, b', b.founder[c], nc, c, n, d)
  {
  }

  lemma SuccessorUses(b: Books, b': Books, c: ChannelInfo, nc: NickCore?, n: NickCore, d: ChannelInfo)
    requires Closed(b) && Closed(b') && c in b.founder && d in b.founder
    requires b'.founder == b.founder && b'.successor == b.successor[c := nc] && b'.naming == b.naming
    ensures UsePassed(b, b', b.successor[c], nc, c, n, d)
  {
  }

  lemma UnnamedUses(b: Books, b': Books, e: ChanAccess, c: ChannelInfo, n: NickCore, d: ChannelInfo)
    requires Closed(b) && Closed(b') && c in b.founder && d in b.founder && e in b.naming && b.naming[e].ci == c
    requires b'.founder == b.founder && b'.successor == b.successor && b'.naming == b.naming - {e}
    ensures UsePassed(b, b', b.naming[e].nc, null, c, n, d)
  {
    EntryGone(b.naming, e, n, d);
    EntryGone(b.naming, e, n, c);
  }

  lemma NamedUses(b: Books, b': Books, e: ChanAccess, v: Naming, c: ChannelInfo, n: NickCore, d: ChannelInfo)
    requires Closed(b) && Closed(b') && c in b.founder && d in b.founder && e !in b.naming && v.ci == c
    requires b'.founder == b.founder && b'.successor == b.successor && b'.naming == b.naming[e := v]
    ensures UsePassed(b, b', null, v.nc, c, n, d)
  {
    EntryAdded(b.naming, e, v, n, d);
  }

  lemma TallyKeys(founded: map<NickCore, int>, f: NickCore?, nc: NickCore?)
    ensures Tally(Tally(founded, f, -1), nc, 1).Keys == founded.Keys
  {
  }

  lemma TallyAt(founded: map<NickCore, int>, f: NickCore?, nc: NickCore?, n: NickCore, k: int)
    requires n in founded && founded[n] == k % UINT16
    ensures Tally(Tally(founded, f, -1), nc, 1)[n] == (k - One(f == n) + One(nc == n)) % UINT16
  {
  }

  lemma FoundedMoves(founder: map<ChannelInfo, NickCore?>, c: ChannelInfo, nc: NickCore?, n: NickCore)
    requires c in founder
    ensures |Founded(founder[c := nc], n)| == |Founded(founder, n)| - One(founder[c] == n) + One(nc == n)
  {
    var was, now := Founded(founder, n), Founded(founder[c := nc], n);
    assert c in was <==> founder[c] == n;
    assert c in now <==> nc == n;
    assert now - {c} == was - {c};
    assert |now| == |now - {c}| + One(nc == n);
    assert |was| == |was - {c}| + One(founder[c] == n);
  }

  function Resucceeded(b: Books, c: ChannelInfo, nc: NickCore?): Books
    requires c in b.successor
  {
    b.(successor := b.successor[c := nc], counts := Passed(b.counts, b.successor[c], nc, c))
  }

  lemma SuccessorStep(b: Books, c: ChannelInfo, nc: NickCore?)
    requires Balanced(b) && c in b.founder && (nc != null ==> nc in b.counts)
    ensures Balanced(Resucceeded(b, c, nc))
  {
    hide Passed, Founded, UsePassed, RightAt;
    SuccessorClosed(b, c, nc);
    var b' := Resucceeded(b, c, nc);
    assert forall n :: n in b.counts ==> Right(b, n);
    forall n, d | n in b.counts && d in b.founder
      ensures UsePassed(b, b', b.successor[c], nc, c, n, d)
    {
      SuccessorUses(b, b', c, nc, n, d);
    }
    PassedBalances(b, b', b.successor[c], nc, c);
  }

  /** The entry stops naming anything. */
  function Unnamed(b: Books, e: ChanAccess): Books
    requires e in b.naming
  {
    var v := b.naming[e];
    b.(naming := b.naming - {e}, counts := if v.ci == null then b.counts else Passed(b.counts, v.nc, null, v.ci))
  }

  lemma UnnamedStep(b: Books, e: ChanAccess)
    requires Balanced(b) && e in b.naming
    ensures Balanced(Unnamed(b, e))
  {
    hide Passed, Founded, UsePassed, RightAt;
    var v, b' := b.naming[e], Unnamed(b, e);
    var c: ChannelInfo? := v.ci;
    if c == null {
      DetachedStep(b, b');
    } else {
      PassedKeys(b.counts, v.nc, null, c);
      assert Closed(b');
      assert forall n :: n in b.counts ==> Right(b, n);
      forall n, d | n in b.counts && d in b.founder
        ensures UsePassed(b, b', v.nc, null, c, n, d)
      {
        UnnamedUses(b, b', e, c, n, d);
      }
      PassedBalances(b, b', v.nc, null, c);
    }
  }

  /** An entry, old or new, starts to name v. */
  function Named(b: Books, e: ChanAccess, v: Naming): Books {
    b.(naming := b.naming[e := v], counts := if v.ci == null then b.counts else Passed(b.counts, null, v.nc, v.ci))
  }

  lemma NamedStep(b: Books, e: ChanAccess, v: Naming)
    requires Balanced(b) && e !in b.naming
    requires (v.ci != null ==> v.ci in b.founder) && (v.nc != null ==> v.nc in b.counts && v.ci != null)
    ensures Balanced(Named(b, e, v))
  {
    hide Passed, Founded, UsePassed, RightAt;
    var b' := Named(b, e, v);
    var c: ChannelInfo? := v.ci;
    if c == null {
      DetachedStep(b, b');
    } else {
      PassedKeys(b.counts, null, v.nc, c);
      assert Closed(b');
      assert forall n :: n in b.counts ==> Right(b, n);
      forall n, d | n in b.counts && d in b.founder
        ensures UsePassed(b, b', null, v.nc, c, n, d)
      {
        NamedUses(b, b', e, v, c, n, d);
      }
      PassedBalances(b, b', null, v.nc, c);
    }
  }

  lemma Renamed(b: Books, e: ChanAccess, v: Naming)
    requires e in b.naming && v.ci != null
    ensures Named(Unnamed(b, e), e, v) == b.(naming := b.naming[e := v],
      counts := Add(if b.naming[e].ci == null then b.counts else Drop(b.counts, b.naming[e].nc, b.naming[e].ci), v.nc, v.ci))
  {
    hide Add, Drop, Passed;
    assert (b.naming - {e})[e := v] == b.naming[e := v];
    if b.naming[e].ci != null {
      PassedEnds(b.counts, b.naming[e].nc, b.naming[e].ci);
    }
    PassedEnds(Unnamed(b, e).counts, v.nc, v.ci);
  }

  /** Entries that belong to no channel count for nothing. */
  lemma DetachedStep(b: Books, b': Books)
    requires Balanced(b) && Closed(b')
    requires b' == b.(naming := b'.naming)
    requires forall e :: e in b.naming && b.naming[e].ci != null ==> e in b'.naming && b'.naming[e] == b.naming[e]
    requires forall e :: e in b'.naming && b'.naming[e].ci != null ==> e in b.naming && b'.naming[e] == b.naming[e]
    ensures Balanced(b')
  {
    forall n | n in b.counts
      ensures Right(b', n)
    {
      assert Right(b, n);
      forall c | c in b.founder
        ensures RightAt(b', n, c)
      {
        assert EntriesFor(b.naming, n, c) == EntriesFor(b'.naming, n, c);
        assert RightAt(b, n, c);
      }
    }
  }

  lemma EntryGone(naming: map<ChanAccess, Naming>, e: ChanAccess, n: NickCore, d: ChannelInfo)
    requires e in naming
    ensures |EntriesFor(naming - {e}, n, d)| == |EntriesFor(naming, n, d)| - One(naming[e] == Naming(d, n))
  {
    var was, now := EntriesFor(naming, n, d), EntriesFor(naming - {e}, n, d);
    assert now == was - {e};
  }

  lemma EntryAdded(naming: map<ChanAccess, Naming>, e: ChanAccess, v: Naming, n: NickCore, d: ChannelInfo)
    requires e !in naming
    ensures |EntriesFor(naming[e := v], n, d)| == |EntriesFor(naming, n, d)| + One(v == Naming(d, n))
  {
    var was, now := EntriesFor(naming, n, d), EntriesFor(naming[e := v], n, d);
    assert now == if v == Naming(d, n) then was + {e} else was;
  }

  function WithAccount(b: Books, n: NickCore): Books {
    b.(counts := b.counts[n := map[]], founded := b.founded[n := 0])
  }

  /** Nothing changes for an account and a channel with the same uses and the same counts. */
  lemma SameAt(b: Books, b': Books, n: NickCore, c: ChannelInfo)
    requires Closed(b) && Closed(b') && n in b.counts && n in b'.counts && c in b.founder && c in b'.founder
    requires b.counts[n] == b'.counts[n] && RightAt(b, n, c)
    requires b.founder[c] == b'.founder[c] && b.successor[c] == b'.successor[c] && b.naming == b'.naming
    ensures RightAt(b', n, c)
  {
  }

  /** An account and a channel that have nothing to do with each other. */
  lemma ApartAt(b: Books, n: NickCore, c: ChannelInfo)
    requires Closed(b) && n in b.counts && c in b.founder && c !in b.counts[n]
    requires b.founder[c] != n && b.successor[c] != n
    requires forall e :: e in b.naming ==> b.naming[e] != Naming(c, n)
    ensures RightAt(b, n, c)
  {
    assert EntriesFor(b.naming, n, c) == {};
  }

  lemma AccountStep(b: Books, n: NickCore)
    requires Balanced(b) && n !in b.counts
    ensures Balanced(WithAccount(b, n))
  {
    hide RightAt, Right;
    var b' := WithAccount(b, n);
    assert Closed(b');
    forall m | m in b'.counts
      ensures Right(b', m)
    {
      AccountStepAt(b, n, m);
    }
  }

  lemma AccountStepAt(b: Books, n: NickCore, m: NickCore)
    requires Balanced(b) && n !in b.counts && Closed(WithAccount(b, n)) && (m == n || m in b.counts)
    ensures Right(WithAccount(b, n), m)
  {
    hide RightAt;
    var b' := WithAccount(b, n);
    if m == n {
      assert Founded(b.founder, n) == {};
    } else {
      assert Right(b, m);
    }
    forall c | c in b.founder
      ensures RightAt(b', m, c)
    {
      if m == n {
        ApartAt(b', m, c);
      } else {
        SameAt(b, b', m, c);
      }
    }
  }

  function WithChannel(b: Books, c: ChannelInfo): Books {
    b.(founder := b.founder[c := null], successor := b.successor[c := null])
  }

  lemma ChannelStep(b: Books, c: ChannelInfo)
    requires Balanced(b) && c !in b.founder
    ensures Balanced(WithChannel(b, c))
  {
    hide RightAt, Right;
    var b' := WithChannel(b, c);
    assert Closed(b');
    forall n | n in b'.counts
      ensures Right(b', n)
    {
      ChannelStepAt(b, c, n);
    }
  }

  lemma ChannelStepAt(b: Books, c: ChannelInfo, n: NickCore)
    requires Balanced(b) && c !in b.founder && Closed(WithChannel(b, c)) && n in b.counts
    ensures Right(WithChannel(b, c), n)
  {
    hide RightAt;
    var b' := WithChannel(b, c);
    assert Right(b, n);
    assert Founded(b'.founder, n) == Founded(b.founder, n);
    forall d | d in b'.founder
      ensures RightAt(b', n, d)
    {
      if d == c {
        ApartAt(b', n, d);
      } else {
        SameAt(b, b', n, d);
      }
    }
  }

  function WithoutChannel(b: Books, c: ChannelInfo): Books {
    b.(founder := b.founder - {c}, successor := b.successor - {c})
  }

  lemma PassedEnds(counts: Counts, n: NickCore?, c: ChannelInfo)
    ensures Passed(counts, n, null, c) == Drop(counts, n, c)
    ensures Passed(counts, null, n, c) == Add(counts, n, c)
  {
  }

  /** Nobody counts a channel that refers to nobody. */
  lemma Uncounted(b: Books, c: ChannelInfo, n: NickCore)
    requires Balanced(b) && c in b.founder && b.founder[c] == null && b.successor[c] == null
    requires forall e :: e in b.naming ==> b.naming[e].ci != c
    requires n in b.counts
    ensures c !in b.counts[n]
  {
    assert Right(b, n);
    assert EntriesFor(b.naming, n, c) == {};
    assert RightAt(b, n, c);
  }

  lemma GoneStep(b: Books, c: ChannelInfo)
    requires Balanced(b) && c in b.founder && b.founder[c] == null && b.successor[c] == null
    requires forall e :: e in b.naming ==> b.naming[e].ci != c
    ensures Balanced(WithoutChannel(b, c))
    ensures forall n :: n in b.counts ==> c !in b.counts[n]
  {
    hide RightAt;
    var b' := WithoutChannel(b, c);
    assert Closed(b');
    forall n | n in b'.counts
      ensures Right(b', n)
      ensures c !in b.counts[n]
    {
      Uncounted(b, c, n);
      assert Right(b, n);
      assert Founded(b'.founder, n) == Founded(b.founder, n);
      forall d | d in b'.founder
        ensures RightAt(b', n, d)
      {
        SameAt(b, b', n, d);
      }
    }
  }

  /** All accounts, all registered channels and all access entries that exist. */
  class Services {
    var accounts: set<NickCore>
    var channels: set<ChannelInfo>
    var entries: set<ChanAccess>

    ghost function Founders(): map<ChannelInfo, NickCore?>
      reads this`channels, channels`founder
    {
      map c | c in channels :: c.founder
    }

    ghost function Successors(): map<ChannelInfo, NickCore?>
      reads this`channels, channels`successor
    {
      map c | c in channels :: c.successor
    }

    ghost function Namings(): map<ChanAccess, Naming>
      reads this`entries, entries`ci, entries`nc
    {
      map e | e in entries :: Naming(e.ci, e.nc)
    }

    ghost function References(): Counts
      reads this`accounts, accounts`chanaccess
    {
      map n | n in accounts :: n.chanaccess
    }

    ghost function ChannelCounts(): map<NickCore, int>
      reads this`accounts, accounts`channelcount
    {
      map n | n in accounts :: n.channelcount
    }

    ghost function Record(): Books
      reads this, accounts, channels, entries
    {
      Books(Founders(), Successors(), Namings(), References(), ChannelCounts())
    }

    /** Every list holds entries of its own channel, each once. */
    ghost predicate Listed()
      reads this`channels, this`entries, channels`access, entries`ci
    {
      && (forall c, e :: c in channels && e in c.access ==> e in entries && e.ci == c)
      && (forall c :: c in channels ==> Unrepeated(c.access))
    }

    ghost predicate Valid()
      reads this, accounts, channels, entries
    {
      Listed() && Balanced(Record())
    }

    constructor ()
      ensures Valid() && accounts == {} && channels == {} && entries == {}
    {
      accounts, channels, entries := {}, {}, {};
    }

    method Unrefer(n: NickCore?, c: ChannelInfo)
      requires n != null ==> n in accounts
      modifies accounts`chanaccess
      ensures Record() == old(Record()).(counts := Drop(old(Record()).counts, n, c)) && Listed() == old(Listed())
    {
      if n != null {
        n.RemoveChannelReference(c);
      }
    }

    method Refer(n: NickCore?, c: ChannelInfo)
      requires n != null ==> n in accounts
      modifies accounts`chanaccess
      ensures Record() == old(Record()).(counts := Add(old(Record()).counts, n, c)) && Listed() == old(Listed())
    {
      if n != null {
        n.AddChannelReference(c);
      }
    }

    method CountFounder(n: NickCore?, change: int)
      requires n != null ==> n in accounts
      modifies accounts`channelcount
      ensures Record() == old(Record()).(founded := Tally(old(Record()).founded, n, change)) && Listed() == old(Listed())
    {
      if n != null {
        n.channelcount := (n.channelcount + change) % UINT16;
      }
    }

    method PutFounder(c: ChannelInfo, nc: NickCore?)
      requires c in channels
      modifies c`founder
      ensures c.founder == nc && Record() == old(Record()).(founder := old(Record()).founder[c := nc]) && Listed() == old(Listed())
    {
      c.founder := nc;
    }

    method PutSuccessor(c: ChannelInfo, nc: NickCore?)
      requires c in channels
      modifies c`successor
      ensures c.successor == nc && Record() == old(Record()).(successor := old(Record()).successor[c := nc]) && Listed() == old(Listed())
    {
      c.successor := nc;
    }

    method PutNaming(e: ChanAccess, c: ChannelInfo, nc: NickCore?, mask: string)
      requires Listed() && e in entries
      requires e.ci != null && e.ci in channels && e.ci != c ==> e !in e.ci.access
      modifies e
      ensures e.ci == c && e.nc == nc && e.mask == mask
      ensures Record() == old(Record()).(naming := old(Record()).naming[e := Naming(c, nc)]) && Listed()
    {
      e.ci, e.nc, e.mask := c, nc, mask;
      assert Namings() == old(Namings())[e := Naming(c, nc)];
    }

    lemma PartiesExist()
      requires Balanced(Record())
      ensures Record().founder.Keys == channels && Record().successor.Keys == channels
      ensures Record().counts.Keys == accounts && Record().naming.Keys == entries
      ensures forall c :: c in channels ==> c.founder == Record().founder[c] && c.successor == Record().successor[c]
      ensures forall e :: e in entries ==> Record().naming[e] == Naming(e.ci, e.nc)
      ensures Closed(Record())
    {
    }

    method SetFounder(c: ChannelInfo, nc: NickCore?)
      requires Valid() && c in channels && (nc != null ==> nc in accounts)
      modifies c`founder, accounts
      ensures Valid() && c.founder == nc && Record() == Refounded(old(Record()), c, nc)
    {
      hide Balanced, Tally, Add, Drop, Listed, Record;
      PartiesExist();
      FounderStep(Record(), c, nc);
      CountFounder(c.founder, -1);
      Unrefer(c.founder, c);
      PutFounder(c, nc);
      CountFounder(c.founder, 1);
      Refer(c.founder, c);
    }

    method SetSuccessor(c: ChannelInfo, nc: NickCore?)
      requires Valid() && c in channels && (nc != null ==> nc in accounts)
      modifies c`successor, accounts`chanaccess
      ensures Valid() && c.successor == nc && Record() == Resucceeded(old(Record()), c, nc)
    {
      hide Balanced, Add, Drop, Listed, Record;
      PartiesExist();
      SuccessorStep(Record(), c, nc);
      Unrefer(c.successor, c);
      PutSuccessor(c, nc);
      Refer(c.successor, c);
    }

    /** ChanAccess::SetMask; found is the account of NickAlias::Find(m). */
    method SetMask(e: ChanAccess, m: string, c: ChannelInfo, found: NickCore?)
      requires Valid() && e in entries && c in channels && (found != null ==> found in accounts)
      requires e.ci != null && e.ci in channels && e.ci != c ==> e !in e.ci.access
      modifies e, accounts`chanaccess
      ensures Valid() && Record() == Named(Unnamed(old(Record()), e), e, Naming(c, found))
      ensures e.ci == c && e.nc == found && e.mask == if found == null then m else ""
    {
      hide Balanced, Add, Drop, Passed, Record, Listed;
      PartiesExist();
      ghost var b := Record();
      UnnamedStep(b, e);
      assert Unnamed(b, e).counts.Keys == accounts by {
        if e.ci != null {
          PassedKeys(b.counts, e.nc, null, e.ci);
        }
      }
      NamedStep(Unnamed(b, e), e, Naming(c, found));
      Renamed(b, e, Naming(c, found));
      hide Named, Unnamed;
      if e.ci != null {
        Unrefer(e.nc, e.ci);
      }
      PutNaming(e, c, found, if found == null then m else "");
      Refer(e.nc, c);
    }

    method PutAccount(n: NickCore)
      requires n !in accounts && n.chanaccess == map[] && n.channelcount == 0
      modifies this`accounts
      ensures Record() == WithAccount(old(Record()), n) && Listed() == old(Listed())
    {
      accounts := accounts + {n};
      assert References() == old(References())[n := map[]];
      assert ChannelCounts() == old(ChannelCounts())[n := 0];
    }

    method NewAccount() returns (n: NickCore)
      requires Valid()
      modifies this`accounts
      ensures Valid() && fresh(n) && Record() == WithAccount(old(Record()), n)
    {
      hide Balanced, Record, Listed;
      PartiesExist();
      n := new NickCore();
      AccountStep(Record(), n);
      PutAccount(n);
    }

    method PutChannel(c: ChannelInfo)
      requires c !in channels && c.founder == null && c.successor == null && c.access == []
      modifies this`channels
      ensures Record() == WithChannel(old(Record()), c) && Listed() == old(Listed())
    {
      channels := channels + {c};
      assert Founders() == old(Founders())[c := null];
      assert Successors() == old(Successors())[c := null];
    }

    method NewChannel() returns (c: ChannelInfo)
      requires Valid()
      modifies this`channels
      ensures Valid() && fresh(c) && c.access == [] && Record() == WithChannel(old(Record()), c)
    {
      hide Balanced, Record, Listed;
      PartiesExist();
      c := new ChannelInfo();
      ChannelStep(Record(), c);
      PutChannel(c);
    }

    method PutEntry(e: ChanAccess)
      requires Listed() && e !in entries
      modifies this`entries
      ensures Record() == old(Record()).(naming := old(Record()).naming[e := Naming(e.ci, e.nc)]) && Listed()
    {
      entries := entries + {e};
      assert Namings() == old(Namings())[e := Naming(e.ci, e.nc)];
    }

    method NewEntry() returns (e: ChanAccess)
      requires Valid()
      modifies this`entries
      ensures Valid() && fresh(e) && Record() == Named(old(Record()), e, Naming(null, null))
    {
      hide Balanced, Record, Listed;
      PartiesExist();
      e := new ChanAccess();
      NamedStep(Record(), e, Naming(null, null));
      PutEntry(e);
    }

    /** ChannelInfo::AddAccess. */
    method AddAccess(c: ChannelInfo, e: ChanAccess)
      requires Valid() && c in channels && e in entries && e.ci == c && e !in c.access
      modifies c`access
      ensures Valid() && c.access == old(c.access) + [e] && Record() == old(Record())
    {
      hide Balanced;
      c.access := c.access + [e];
      assert Record() == old(Record());
    }

    method EraseEntry(e: ChanAccess)
      requires Listed() && e in entries && (e.ci != null ==> e.ci in channels)
      modifies this`entries, channels`access
      ensures Listed() && Record() == old(Record()).(naming := old(Record()).naming - {e}) && entries == old(entries) - {e}
      ensures forall d :: d in channels ==> d.access == if d == e.ci then Without(old(d.access), e) else old(d.access)
    {
      if e.ci != null {
        Unlist(e.ci, e);
      }
      assert forall d :: d in channels && d != e.ci ==> e !in d.access;
      hide Listed, Record, Without;
      DropEntry(e);
    }

    method DropEntry(e: ChanAccess)
      requires Listed() && forall d :: d in channels ==> e !in d.access
      modifies this`entries
      ensures Listed() && Record() == old(Record()).(naming := old(Record()).naming - {e}) && entries == old(entries) - {e}
    {
      entries := entries - {e};
      assert Namings() == old(Namings()) - {e};
    }

    method Unlist(c: ChannelInfo, e: ChanAccess)
      requires Listed() && c in channels
      modifies c`access
      ensures Listed() && c.access == Without(old(c.access), e) && e !in c.access && Record() == old(Record())
    {
      WithoutDistinct(c.access, e);
      c.access := Without(c.access, e);
      hide Without;
      assert Record() == old(Record());
    }

    /** ChanAccess::~ChanAccess. */
    method DeleteEntry(e: ChanAccess)
      requires Valid() && e in entries
      modifies this`entries, channels`access, accounts`chanaccess
      ensures Valid() && entries == old(entries) - {e} && Record() == Unnamed(old(Record()), e)
      ensures forall d :: d in channels ==> d.access == if d == e.ci then Without(old(d.access), e) else old(d.access)
    {
      hide Balanced, Add, Drop, Passed, Record, Listed;
      PartiesExist();
      UnnamedStep(Record(), e);
      EraseEntry(e);
      if e.ci != null {
        PassedEnds(Record().counts, e.nc, e.ci);
        Unrefer(e.nc, e.ci);
      }
    }

    method DeleteLast(c: ChannelInfo)
      requires Valid() && c in channels && c.access != []
      modifies this`entries, channels`access, accounts`chanaccess
      ensures Valid() && c.access == old(c.access[..|c.access| - 1])
      ensures entries == old(entries - {c.access[|c.access| - 1]})
      ensures forall d :: d in channels && d != c ==> d.access == old(d.access)
      ensures Record().founder == old(Record()).founder && Record().successor == old(Record()).successor
    {
      var e := c.access[|c.access| - 1];
      assert e in entries && e.ci == c;
      WithoutLast(c.access);
      hide Balanced, Listed, Record, Without;
      PartiesExist();
      DeleteEntry(e);
      PartiesExist();
    }

    /** ChannelInfo::ClearAccess. */
    method ClearAccess(c: ChannelInfo)
      requires Valid() && c in channels
      modifies this`entries, channels`access, accounts`chanaccess
      ensures Valid() && c.access == []
      ensures Record().founder == old(Record()).founder && Record().successor == old(Record()).successor
      ensures entries == old(entries - set e | e in c.access)
      ensures forall d :: d in channels && d != c ==> d.access == old(d.access)
    {
      hide Balanced, Listed, Record;
      var i := |c.access|;
      while i > 0
        invariant Valid() && 0 <= i <= old(|c.access|) && c.access == old(c.access)[..i]
        invariant Record().founder == old(Record()).founder && Record().successor == old(Record()).successor
        invariant entries == old(entries) - set e | e in old(c.access)[i..]
        invariant forall d :: d in channels && d != c ==> d.access == old(d.access)
      {
        assert old(c.access)[i - 1..] == [old(c.access)[i - 1]] + old(c.access)[i..];
        DeleteLast(c);
        i := i - 1;
      }
    }

    method DropChannel(c: ChannelInfo)
      requires Listed() && c in channels
      modifies this`channels
      ensures channels == old(channels) - {c}
      ensures Record() == WithoutChannel(old(Record()), c) && Listed()
    {
      channels := channels - {c};
      assert Founders() == old(Founders()) - {c};
      assert Successors() == old(Successors()) - {c};
    }

    method StripChannel(c: ChannelInfo)
      requires Valid() && c in channels
      modifies this`entries, channels`access, c`founder, c`successor, accounts
      ensures Valid() && c.founder == null && c.successor == null && entries == old(entries - set e | e in c.access)
      ensures forall d :: d in channels && d != c ==> d.access == old(d.access)
    {
      hide Balanced, Listed, Record;
      SetFounder(c, null);
      SetSuccessor(c, null);
      ClearAccess(c);
      PartiesExist();
    }

    /** The reference keeping of ChannelInfo::~ChannelInfo. The books stay balanced if and only if every entry that names
        the channel was in its list; the accounts of others go on counting the channel. */
    method DeleteChannel(c: ChannelInfo)
      requires Valid() && c in channels
      modifies this`entries, this`channels, channels`access, c`founder, c`successor, accounts
      ensures Valid() <==> forall e :: e in old(entries) && e.ci == c ==> e in old(c.access)
      ensures channels == old(channels) - {c} && entries == old(entries - set e | e in c.access)
      ensures forall n :: n in accounts ==> (c in n.chanaccess <==> exists e :: e in entries && e.ci == c && e.nc == n)
      ensures forall d :: d in channels ==> d.access == old(d.access) && d.founder == old(d.founder) && d.successor == old(d.successor)
    {
      hide Balanced, Listed, Record;
      StripChannel(c);
      OnlyStrays(c);
      if forall e :: e in entries ==> e.ci != c {
        Unreferred(c);
      }
      DropChannel(c);
      forall e | e in entries && e.ci == c
        ensures !Valid()
      {
        Astray(c, e);
      }
    }

    /** Whoever counts a channel without founder and successor has an entry for it. */
    lemma OnlyStrays(c: ChannelInfo)
      requires Valid() && c in channels && c.founder == null && c.successor == null
      ensures forall n :: n in accounts ==> (c in n.chanaccess <==> exists e :: e in entries && e.ci == c && e.nc == n)
    {
      hide Balanced, Listed, Record;
      forall n | n in accounts
        ensures c in n.chanaccess <==> exists e :: e in entries && e.ci == c && e.nc == n
      {
        Conservation(n, c);
        ghost var own := set e | e in entries && e.ci == c && e.nc == n;
        assert forall e :: e in entries && e.ci == c && e.nc == n ==> e in own;
        if own != {} {
          var e :| e in own;
        }
      }
    }

    lemma Astray(c: ChannelInfo, e: ChanAccess)
      requires e in entries && e.ci == c && c !in channels
      ensures !Valid()
    {
      assert e in Namings() && Namings()[e].ci == c && c !in Founders();
    }

    /** What balanced books say of the objects themselves. */
    lemma Conservation(n: NickCore, c: ChannelInfo)
      requires Valid() && n in accounts && c in channels
      ensures Count(n.chanaccess, c) == One(c.founder == n) + One(c.successor == n) + |set e | e in entries && e.ci == c && e.nc == n|
      ensures c in n.chanaccess <==> Count(n.chanaccess, c) > 0
      ensures n.chanaccess.Keys <= channels
      ensures n.channelcount == |set d | d in channels && d.founder == n| % UINT16
    {
      assert EntriesFor(Namings(), n, c) == set e | e in entries && e.ci == c && e.nc == n;
      assert Founded(Founders(), n) == set d | d in channels && d.founder == n;
      assert References()[n] == n.chanaccess && ChannelCounts()[n] == n.channelcount;
      hide EntriesFor, Founded, Listed, Closed, Record;
      PartiesExist();
      assert Right(Record(), n) && RightAt(Record(), n, c);
    }

    lemma Unreferred(c: ChannelInfo)
      requires Valid() && c in channels && c.founder == null && c.successor == null
      requires forall e :: e in entries ==> e.ci != c
      ensures Balanced(WithoutChannel(Record(), c))
      ensures forall n :: n in accounts ==> c !in n.chanaccess
    {
      hide Balanced;
      PartiesExist();
      GoneStep(Record(), c);
      assert forall n :: n in accounts ==> Record().counts[n] == n.chanaccess;
    }
  }
}
