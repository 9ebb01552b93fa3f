/** The tokenizer of src/hashcomp.cpp. */
module SepStream {
  import opened Wrappers
  import opened Strings

  /** The pieces between the separators. */
  function Split(s: string, sep: char): (r: seq<string>)
    ensures r != []
    ensures forall i :: 0 <= i < |r| ==> sep !in r[i]
    decreases |s|
  {
    var p := Find(s, sep, 0);
    if p.None? then [s] else [s[..p.value]] + Split(s[p.value + 1..], sep)
  }

  function Join(pieces: seq<string>, sep: char): string {
    if pieces == [] then "" else if |pieces| == 1 then pieces[0] else pieces[0] + [sep] + Join(pieces[1..], sep)
  }

  function NonEmpty(pieces: seq<string>): (r: seq<string>)
    ensures forall i :: 0 <= i < |r| ==> r[i] != "" && r[i] in pieces
    ensures forall t :: t in pieces && t != "" ==> t in r
  {
    if pieces == [] then []
    else if pieces[0] == "" then NonEmpty(pieces[1..])
    else [pieces[0]] + NonEmpty(pieces[1..])
  }

  /** Nothing is dropped but empty pieces, and the others stay in order. */
  lemma {:induction false} NonEmptyJoins(a: seq<string>, b: seq<string>)
    ensures NonEmpty(a + b) == NonEmpty(a) + NonEmpty(b)
    ensures forall piece :: NonEmpty([piece]) == if piece == "" then [] else [piece]
  {
    if a == [] {
      assert a + b == b;
    } else {
      assert (a + b)[0] == a[0] && (a + b)[1..] == a[1..] + b;
      NonEmptyJoins(a[1..], b);
    }
  }

  lemma {:induction false} JoinSplit(s: string, sep: char)
    ensures Join(Split(s, sep), sep) == s
    decreases |s|
  {
    var p := Find(s, sep, 0);
    if p.Some? {
      JoinSplit(s[p.value + 1..], sep);
      assert s == s[..p.value] + [sep] + s[p.value + 1..];
    }
  }

  lemma SplitAt(s: string, sep: char, p: nat)
    requires p < |s| && s[p] == sep && forall i :: 0 <= i < p ==> s[i] != sep
    ensures Split(s, sep) == [s[..p]] + Split(s[p + 1..], sep)
  {
    assert Find(s, sep, 0).Some? && Find(s, sep, 0).value == p;
  }

  lemma SplitFirst(piece: string, sep: char, rest: string)
    requires sep !in piece
    ensures Split(piece + [sep] + rest, sep) == [piece] + Split(rest, sep)
  {
    hide Split;
    var s := piece + [sep] + rest;
    assert s[|piece|] == sep && forall i :: 0 <= i < |piece| ==> s[i] == piece[i];
    SplitAt(s, sep, |piece|);
    assert s[..|piece|] == piece && s[|piece| + 1..] == rest;
  }

  lemma SplitNone(s: string, sep: char)
    requires sep !in s
    ensures Split(s, sep) == [s]
  {
    assert Find(s, sep, 0).None?;
  }

  lemma {:induction false} SplitJoin(pieces: seq<string>, sep: char)
    requires pieces != [] && forall i :: 0 <= i < |pieces| ==> sep !in pieces[i]
    ensures Split(Join(pieces, sep), sep) == pieces
  {
    if |pieces| == 1 {
      SplitNone(pieces[0], sep);
    } else {
      SplitJoin(pieces[1..], sep);
      SplitFirst(pieces[0], sep, Join(pieces[1..], sep));
    }
  }

  lemma {:induction false} JoinGrows(pieces: seq<string>, piece: string, sep: char)
    requires pieces != []
    ensures Join(pieces + [piece], sep) == Join(pieces, sep) + [sep] + piece
  {
    assert (pieces + [piece])[1..] == pieces[1..] + [piece];
    if |pieces| > 1 {
      JoinGrows(pieces[1..], piece, sep);
      assert Join(pieces + [piece], sep) == pieces[0] + [sep] + (Join(pieces[1..], sep) + [sep] + piece);
    } else {
      assert pieces[1..] + [piece] == [piece];
    }
  }

  lemma Regroup<T>(a: seq<T>, b: seq<T>, c: seq<T>)
    ensures a + (b + c) == a + b + c
  {
  }

  /** Splitting around a separator splits both sides. */
  lemma {:induction false} SplitConcat(a: string, sep: char, b: string)
    ensures Split(a + [sep] + b, sep) == Split(a, sep) + Split(b, sep)
    decreases |a|
  {
    hide Split;
    var p := Find(a, sep, 0);
    if p.None? {
      SplitFirst(a, sep, b);
      SplitNone(a, sep);
    } else {
      var head, rest := a[..p.value], a[p.value + 1..];
      assert a == head + [sep] + rest;
      SplitConcat(rest, sep, b);
      SplitFirst(head, sep, rest);
      var tail := rest + [sep] + b;
      SplitFirst(head, sep, tail);
      assert a + [sep] + b == head + [sep] + tail;
      Regroup([head], Split(rest, sep), Split(b, sep));
    }
  }

  lemma {:induction false} PieceLength(s: string, sep: char, piece: string)
    requires piece in Split(s, sep)
    ensures |piece| <= |s|
    decreases |s|
  {
    var p := Find(s, sep, 0);
    if p.Some? && piece != s[..p.value] {
      PieceLength(s[p.value + 1..], sep, piece);
    }
  }

  /** The tokens that a stream has left to give at a position. */
  function Pending(s: string, sep: char, allowEmpty: bool, pos: nat): seq<string> {
    if pos > |s| then [] else if allowEmpty then Split(s[pos..], sep) else NonEmpty(Split(s[pos..], sep))
  }

  /** Leading separators hold no token. */
  lemma {:induction false} SkipLeading(s: string, sep: char, pos: nat, k: nat)
    requires pos <= k <= |s| && forall i :: pos <= i < k ==> s[i] == sep
    ensures Pending(s, sep, false, pos) == Pending(s, sep, false, k)
    decreases k - pos
  {
    if pos < k {
      SplitAt(s[pos..], sep, 0);
      assert s[pos..][1..] == s[pos + 1..] && s[pos..][..0] == "";
      assert NonEmpty([""] + Split(s[pos + 1..], sep)) == NonEmpty(Split(s[pos + 1..], sep));
      SkipLeading(s, sep, pos + 1, k);
    }
  }

  lemma OneToken(s: string, sep: char, allowEmpty: bool, pos: nat, p: nat)
    requires pos <= p <= |s| && (p < |s| ==> s[p] == sep) && forall i :: pos <= i < p ==> s[i] != sep
    requires allowEmpty || pos < p
    ensures Pending(s, sep, allowEmpty, pos) == [s[pos..p]] + Pending(s, sep, allowEmpty, p + 1)
  {
    if p < |s| {
      SplitAt(s[pos..], sep, p - pos);
      assert s[pos..][..p - pos] == s[pos..p] && s[pos..][p - pos + 1..] == s[p + 1..];
    } else {
      assert s[pos..] == s[pos..p];
      SplitNone(s[pos..], sep);
    }
    var token := s[pos..p];
    var rest := if p < |s| then Split(s[p + 1..], sep) else [];
    assert Split(s[pos..], sep) == [token] + rest;
    if !allowEmpty {
      assert ([token] + rest)[1..] == rest;
      assert NonEmpty([token] + rest) == [token] + NonEmpty(rest);
    }
  }

  class SepStream {
    const tokens: string
    const sep: char
    const allowEmpty: bool
    var pos: nat

    constructor (source: string, separator: char, ae: bool)
      ensures tokens == source && sep == separator && allowEmpty == ae && pos == 0
      ensures Left() == if ae then Split(source, separator) else NonEmpty(Split(source, separator))
    {
      tokens, sep, allowEmpty, pos := source, separator, ae, 0;
      assert source[0..] == source;
    }

    function Left(): seq<string>
      reads this
    {
      Pending(tokens, sep, allowEmpty, pos)
    }

    predicate StreamEnd()
      reads this
    {
      pos > |tokens|
    }

    method GetToken() returns (ok: bool, token: string)
      modifies this
      ensures ok <==> old(Left()) != []
      ensures ok ==> token == old(Left())[0] && Left() == old(Left())[1..] && pos > old(pos)
      ensures !ok ==> token == "" && Left() == []
      ensures ok ==> pos <= |tokens| + 1
    {
      hide Split, NonEmpty, Find, FindNot, Pending;
      if StreamEnd() {
        StreamOver(tokens, sep, allowEmpty, pos);
        return false, "";
      }
      if !allowEmpty {
        var first := FindNot(tokens, sep, pos);
        if first.None? {
          NothingLeft(tokens, sep, pos);
          pos := |tokens| + 1;
          StreamOver(tokens, sep, allowEmpty, pos);
          return false, "";
        }
        SkipLeading(tokens, sep, pos, first.value);
        pos := first.value;
      }
      var found := Find(tokens, sep, pos);
      var p := if found.None? then |tokens| else found.value;
      OneToken(tokens, sep, allowEmpty, pos, p);
      token := tokens[pos..p];
      pos := p + 1;
      ok := true;
    }

    method GetTokens() returns (all: seq<string>)
      modifies this
      ensures all == old(Left()) && Left() == []
    {
      hide Pending, Split, NonEmpty;
      all := [];
      var ok, t := GetToken();
      while ok
        invariant old(Left()) == if ok then all + [t] + Left() else all
        invariant ok ==> pos <= |tokens| + 1
        invariant !ok ==> Left() == []
        decreases ok, |tokens| + 1 - pos
      {
        all := all + [t];
        ok, t := GetToken();
      }
    }

    /** GetToken(token, num): the token with that number, counted from 0, if there is one. The number -1 asks for none
        and is always granted, a lower one never is. */
    method GetTokenNumber(num: int) returns (ok: bool, token: string)
      modifies this
      ensures num >= 0 ==> (ok <==> num < |old(Left())|)
      ensures num >= 0 && ok ==> token == old(Left())[num] && Left() == old(Left())[num + 1..] && pos <= |tokens| + 1
      ensures num >= 0 && !ok ==> Left() == []
      ensures num < 0 ==> (ok <==> num == -1) && Left() == old(Left())
    {
      var i := 0;
      var more := true;
      token := "";
      while i < num + 1 && more
        invariant 0 <= i && (num >= 0 ==> i <= num + 1) && (num < 0 ==> i == 0 && more)
        invariant more ==> i <= |old(Left())| && Left() == old(Left())[i..]
        invariant more && i > 0 ==> token == old(Left())[i - 1] && pos <= |tokens| + 1
        invariant !more ==> |old(Left())| <= i < num + 1 && Left() == []
        decreases num + 1 - i, more
      {
        more, token := GetToken();
        if more {
          i := i + 1;
        }
      }
      ok := i == num + 1;
    }

    method NumTokens() returns (n: nat)
      modifies this
      ensures n == |old(Left())| && Left() == []
    {
      n := 0;
      var ok, t := GetToken();
      while ok
        invariant |old(Left())| == n + |Left()| + if ok then 1 else 0
        invariant ok ==> pos <= |tokens| + 1
        invariant !ok ==> Left() == []
        decreases ok, |tokens| + 1 - pos
      {
        n := n + 1;
        ok, t := GetToken();
      }
    }
  }

  lemma StreamOver(s: string, sep: char, allowEmpty: bool, pos: nat)
    requires pos > |s|
    ensures Pending(s, sep, allowEmpty, pos) == []
  {
  }

  lemma NothingLeft(s: string, sep: char, pos: nat)
    requires pos <= |s| && forall i :: pos <= i < |s| ==> s[i] == sep
    ensures Pending(s, sep, false, pos) == []
  {
    SkipLeading(s, sep, pos, |s|);
    assert s[|s|..] == "";
    SplitNone("", sep);
    assert NonEmpty([""]) == NonEmpty([]);
  }
}
