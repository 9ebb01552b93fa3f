/** The base64 codec of src/base64.cpp against the encoding of RFC 4648, section 4. */
module Base64 {
  import opened Wrappers
  import opened OctetSeqs
  import opened Strings

  ghost predicate IsSextets(v: seq<int>) {
    forall i :: 0 <= i < |v| ==> 0 <= v[i] < 64
  }

  // ---------- the alphabet ----------

  const PAD64 := '='

  predicate IsSpace(c: char) {
    c == ' ' || '\t' <= c <= '\r'
  }

  /** Sixty-four different symbols, none of them whitespace or the padding character. The codec takes
      the table as a parameter and needs nothing else of it. */
  ghost predicate IsAlphabet(table: string) {
    && |table| == 64
    && (forall i, j :: 0 <= i < j < 64 ==> table[i] != table[j])
    && (forall i :: 0 <= i < 64 ==> !IsSpace(table[i]) && table[i] != PAD64)
  }

  function Run(first: char, n: nat): string
    requires first as int + n < 128
  {
    seq(n, i requires 0 <= i < n => (first as int + i) as char)
  }

  /** The table of the source: A to Z, a to z, 0 to 9, '+' and '/'. */
  function SourceTable(): string {
    Run('A', 26) + Run('a', 26) + Run('0', 10) + "+/"
  }

  lemma SourceAlphabet()
    ensures IsAlphabet(SourceTable())
  {
    forall i | 0 <= i < 64
      ensures SourceTable()[i] as int == if i < 26 then 'A' as int + i else if i < 52 then 'a' as int + i - 26
                                  else if i < 62 then '0' as int + i - 52 else if i == 62 then '+' as int else '/' as int
    {
    }
  }

  function Symbol(table: string, v: int): char
    requires |table| == 64 && 0 <= v < 64
  {
    table[v]
  }

  lemma FindSymbol(table: string, v: int)
    requires IsAlphabet(table) && 0 <= v < 64
    ensures Find(table, Symbol(table, v), 0) == Some(v)
    ensures !IsSpace(Symbol(table, v)) && Symbol(table, v) != PAD64
  {
    assert table[v] in table;
  }

  // ---------- three octets and four sextets ----------

  /** The shifts and masks of the encoder, written with / and %; taking a character into an unsigned
      char is the remainder by 256. */
  function S0(b0: int): (v: int) ensures 0 <= v < 64 { b0 % 256 / 4 }
  function S1(b0: int, b1: int): (v: int) ensures 0 <= v < 64 { b0 % 4 * 16 + b1 % 256 / 16 }
  function S2(b1: int, b2: int): (v: int) ensures 0 <= v < 64 { b1 % 16 * 4 + b2 % 256 / 64 }
  function S3(b2: int): (v: int) ensures 0 <= v < 64 { b2 % 64 }

  /** The octets that four sextets stand for. */
  function O0(v0: int, v1: int): int { v0 * 4 + v1 / 16 }
  function O1(v1: int, v2: int): int { v1 % 16 * 16 + v2 / 4 }
  function O2(v2: int, v3: int): int { v2 % 4 * 64 + v3 }

  lemma SextetParts(h0: int, l0: int, h1: int, l1: int, h2: int, l2: int)
    requires 0 <= h0 < 64 && 0 <= l0 < 4 && 0 <= h1 < 16 && 0 <= l1 < 16 && 0 <= h2 < 4 && 0 <= l2 < 64
    ensures var b0, b1, b2 := 4 * h0 + l0, 16 * h1 + l1, 64 * h2 + l2;
      && S0(b0) == h0 && S1(b0, b1) == 16 * l0 + h1 && S2(b1, b2) == 4 * l1 + h2 && S3(b2) == l2
      && S1(b0, 0) == 16 * l0 && S2(b1, 0) == 4 * l1
  {
    var b0, b1, b2 := 4 * h0 + l0, 16 * h1 + l1, 64 * h2 + l2;
    assert b0 % 256 == b0 && b1 % 256 == b1 && b2 % 256 == b2;
    assert b0 % 4 == l0 && b1 % 16 == l1 && b2 % 64 == l2;
  }

  lemma OctetParts(h0: int, l0: int, h1: int, l1: int, h2: int, l2: int)
    requires 0 <= h0 < 64 && 0 <= l0 < 4 && 0 <= h1 < 16 && 0 <= l1 < 16 && 0 <= h2 < 4 && 0 <= l2 < 64
    ensures O0(h0, 16 * l0 + h1) == 4 * h0 + l0 && O1(16 * l0 + h1, 4 * l1 + h2) == 16 * h1 + l1
    ensures O2(4 * l1 + h2, l2) == 64 * h2 + l2 && O1(16 * l0, 0) == 0 && O2(4 * l1, 0) == 0
  {
  }

  /** The sextets are the 24-bit group of the octets, cut into four pieces from the left, and the
      decoder's shifts put the octets together again. */
  lemma OctetsOfSextets(b0: int, b1: int, b2: int)
    requires 0 <= b0 < 256 && 0 <= b1 < 256 && 0 <= b2 < 256
    ensures S0(b0) * 0x40000 + S1(b0, b1) * 0x1000 + S2(b1, b2) * 0x40 + S3(b2) == b0 * 0x10000 + b1 * 0x100 + b2
    ensures O0(S0(b0), S1(b0, b1)) == b0 && O1(S1(b0, b1), S2(b1, b2)) == b1 && O2(S2(b1, b2), S3(b2)) == b2
    ensures O1(S1(b0, 0), 0) == 0 && O2(S2(b1, 0), 0) == 0
  {
    hide S0, S1, S2, S3, O0, O1, O2;
    var h0, l0, h1, l1, h2, l2 := b0 / 4, b0 % 4, b1 / 16, b1 % 16, b2 / 64, b2 % 64;
    assert b0 == 4 * h0 + l0 && b1 == 16 * h1 + l1 && b2 == 64 * h2 + l2;
    SextetParts(h0, l0, h1, l1, h2, l2);
    OctetParts(h0, l0, h1, l1, h2, l2);
  }

  /** Bitwise or of two octets, bit by bit. */
  function BitOr(x: int, y: int): int
    decreases (if x < 0 then 0 else x) + (if y < 0 then 0 else y)
  {
    if x <= 0 && y <= 0 then 0
    else (if x % 2 == 1 || y % 2 == 1 then 1 else 0) + 2 * BitOr(x / 2, y / 2)
  }

  lemma {:induction false} OrZero(x: nat)
    ensures BitOr(x, 0) == x
  {
    if x != 0 {
      OrZero(x / 2);
    }
  }

  lemma OrTwoBits(x: nat, y: nat)
    ensures BitOr(4 * x, y) == y % 4 + 4 * BitOr(x, y / 4)
  {
    assert 4 * x / 2 == 2 * x && 2 * x / 2 == x;
    assert BitOr(4 * x, y) == y % 2 + 2 * BitOr(2 * x, y / 2);
    assert BitOr(2 * x, y / 2) == y / 2 % 2 + 2 * BitOr(x, y / 2 / 2);
  }

  /** Bits that do not overlap add up. */
  lemma OrOfDisjoint(x: nat, y: nat)
    ensures y < 4 ==> BitOr(4 * x, y) == 4 * x + y
    ensures y < 16 ==> BitOr(16 * x, y) == 16 * x + y
    ensures y < 64 ==> BitOr(64 * x, y) == 64 * x + y
  {
    hide BitOr;
    OrZero(x);
    OrTwoBits(x, y);
    OrTwoBits(4 * x, y);
    OrTwoBits(x, y / 4);
    OrTwoBits(16 * x, y);
    OrTwoBits(4 * x, y / 4);
    OrTwoBits(x, y / 16);
  }

  // ---------- encoding ----------

  /** The encoding of the standard: four symbols for three octets, and a last group that is filled
      with zero bits and padded with '='. */
  function Rfc4648(table: string, x: seq<int>): string
    requires |table| == 64
  {
    if x == [] then []
    else if |x| == 1 then [Symbol(table, S0(x[0])), Symbol(table, S1(x[0], 0)), PAD64, PAD64]
    else if |x| == 2 then [Symbol(table, S0(x[0])), Symbol(table, S1(x[0], x[1])), Symbol(table, S2(x[1], 0)), PAD64]
    else Quantum(table, x[0], x[1], x[2]) + Rfc4648(table, x[3..])
  }

  function Quantum(table: string, b0: int, b1: int, b2: int): (r: string)
    requires |table| == 64
    ensures |r| == 4
  {
    [Symbol(table, S0(b0)), Symbol(table, S1(b0, b1)), Symbol(table, S2(b1, b2)), Symbol(table, S3(b2))]
  }

  lemma {:induction false} EncodedLength(table: string, x: seq<int>)
    requires |table| == 64
    ensures |Rfc4648(table, x)| == 4 * ((|x| + 2) / 3)
  {
    hide Quantum;
    if |x| >= 3 {
      EncodedLength(table, x[3..]);
    }
  }

  lemma {:induction false} EncodeSplit(table: string, x: seq<int>, pos: nat)
    requires |table| == 64 && pos % 3 == 0 && pos <= |x|
    ensures Rfc4648(table, x) == Rfc4648(table, x[..pos]) + Rfc4648(table, x[pos..])
    decreases pos
  {
    hide Quantum, Symbol, S0, S1, S2, S3;
    if pos == 0 {
      assert x[0..] == x && x[..0] == [];
    } else {
      EncodeSplit(table, x[3..], pos - 3);
      assert x[..pos][3..] == x[3..][..pos - 3] && x[3..][pos - 3..] == x[pos..];
    }
  }

  lemma NextQuantum(table: string, x: seq<int>, pos: nat)
    requires |table| == 64 && pos % 3 == 0 && pos + 3 <= |x|
    ensures Rfc4648(table, x[..pos + 3]) == Rfc4648(table, x[..pos]) + Quantum(table, x[pos], x[pos + 1], x[pos + 2])
  {
    EncodeSplit(table, x[..pos + 3], pos);
    hide Quantum;
    assert x[..pos + 3][..pos] == x[..pos];
    var last := x[..pos + 3][pos..];
    assert last[3..] == [] && Rfc4648(table, last) == Quantum(table, last[0], last[1], last[2]) + [];
  }

  method B64Encode(table: string, src: seq<int>) returns (target: string)
    requires |table| == 64
    ensures target == Rfc4648(table, src)
    ensures |target| == 4 * ((|src| + 2) / 3)
  {
    EncodedLength(table, src);
    var pos := 0;
    target := "";
    while |src| - pos > 2
      invariant 0 <= pos <= |src| && pos % 3 == 0
      invariant target == Rfc4648(table, src[..pos])
    {
      var b0, b1, b2 := src[pos], src[pos + 1], src[pos + 2];
      NextQuantum(table, src, pos);
      target := target + [Symbol(table, S0(b0)), Symbol(table, S1(b0, b1)), Symbol(table, S2(b1, b2)), Symbol(table, S3(b2))];
      pos := pos + 3;
    }
    EncodeSplit(table, src, pos);
    if pos != |src| {
      // input[1] and input[2] stay zero where the source runs out
      var b0, b1, b2 := src[pos], if pos + 1 < |src| then src[pos + 1] else 0, 0;
      var third := if pos == |src| - 1 then PAD64 else Symbol(table, S2(b1, b2));
      target := target + [Symbol(table, S0(b0)), Symbol(table, S1(b0, b1)), third, PAD64];
    }
  }

  // ---------- decoding ----------

  /** The sextets in front of the first padding character, whitespace skipped; None on a bad character. */
  function Sextets(table: string, src: string): (v: Option<seq<int>>)
    requires |table| == 64
    ensures v.Some? ==> IsSextets(v.value)
  {
    if src == [] then Some([])
    else if IsSpace(src[0]) then Sextets(table, src[1..])
    else if src[0] == PAD64 then Some([])
    else if Find(table, src[0], 0).None? || Sextets(table, src[1..]).None? then None
    else Some([Find(table, src[0], 0).value] + Sextets(table, src[1..]).value)
  }

  /** The octets of a run of sextets; a last incomplete octet is filled with zero bits. */
  function Octets(v: seq<int>): seq<int> {
    if |v| >= 4 then Block(v) + Octets(v[4..])
    else if v == [] then []
    else if |v| == 1 then [O0(v[0], 0)]
    else if |v| == 2 then [O0(v[0], v[1]), O1(v[1], 0)]
    else [O0(v[0], v[1]), O1(v[1], v[2]), O2(v[2], 0)]
  }

  function Block(v: seq<int>): seq<int>
    requires |v| >= 4
  {
    [O0(v[0], v[1]), O1(v[1], v[2]), O2(v[2], v[3])]
  }

  function DropZero(x: seq<int>): seq<int> {
    if x != [] && x[|x| - 1] == 0 then x[..|x| - 1] else x
  }

  function Decoded(table: string, src: string): seq<int>
    requires |table| == 64
  {
    match Sextets(table, src)
    case None => []
    case Some(v) => DropZero(Octets(v))
  }

  /** What the decoder does to its target for one more sextet in each of its four states. */
  function Feed(target: seq<int>, state: int, p: int): seq<int>
    requires 0 < state < 4 ==> target != []
  {
    if state == 0 then target + [O0(p, 0)]
    else if state == 1 then FillLast(target, p / 16) + [O1(p, 0)]
    else if state == 2 then FillLast(target, p / 4) + [O2(p, 0)]
    else if state == 3 then FillLast(target, p)
    else target
  }

  /** target[target.length() - 1] |= bits, on a char. */
  function FillLast(target: seq<int>, bits: int): (r: seq<int>)
    requires target != []
    ensures |r| == |target|
  {
    target[..|target| - 1] + [BitOr(target[|target| - 1], bits)]
  }

  lemma FillBits(front: seq<int>, v: int, w: int)
    requires 0 <= v < 64 && 0 <= w < 64
    ensures FillLast(front + [O0(v, 0)], w / 16) == front + [O0(v, w)]
    ensures FillLast(front + [O1(v, 0)], w / 4) == front + [O1(v, w)]
    ensures FillLast(front + [O2(v, 0)], w) == front + [O2(v, w)]
  {
    FilledOctets(v, w);
    hide BitOr, O0, O1, O2;
    assert forall x :: (front + [x])[..|front|] == front;
  }

  lemma FilledOctets(v: int, w: int)
    requires 0 <= v < 64 && 0 <= w < 64
    ensures BitOr(O0(v, 0), w / 16) == O0(v, w)
    ensures BitOr(O1(v, 0), w / 4) == O1(v, w)
    ensures BitOr(O2(v, 0), w) == O2(v, w)
  {
    hide BitOr;
    assert 0 <= w / 16 < 4 && 0 <= w / 4 < 16;
    OrOfDisjoint(v, w / 16);
    OrOfDisjoint(v % 16, w / 4);
    OrOfDisjoint(v % 4, w);
    assert O0(v, 0) == 4 * v && O0(v, w) == 4 * v + w / 16;
    assert O1(v, 0) == 16 * (v % 16) && O1(v, w) == 16 * (v % 16) + w / 4;
    assert O2(v, 0) == 64 * (v % 4) && O2(v, w) == 64 * (v % 4) + w;
    hide O0, O1, O2;
  }

  lemma FeedSuffix(front: seq<int>, back: seq<int>, state: int, p: int)
    requires 0 < state < 4 ==> back != []
    ensures Feed(front + back, state, p) == front + Feed(back, state, p)
  {
    hide BitOr, O0, O1, O2;
    if back == [] {
      assert front + back == front;
    } else {
      assert (front + back)[..|front + back| - 1] == front + back[..|back| - 1];
    }
  }

  lemma FeedNone(p: int)
    ensures Octets([p]) == Feed(Octets([]), 0, p)
  {
    hide O0;
    assert [] + [O0(p, 0)] == [O0(p, 0)];
  }

  lemma FeedOne(a: int, p: int)
    requires 0 <= a < 64 && 0 <= p < 64
    ensures Octets([a]) != [] && Octets([a] + [p]) == Feed(Octets([a]), 1, p)
  {
    hide FillLast, O0, O1, O2;
    FillBits([], a, p);
    assert [] + [O0(a, 0)] == [O0(a, 0)] && [] + [O0(a, p)] == [O0(a, p)];
    assert [a] + [p] == [a, p];
  }

  lemma FeedTwo(a: int, b: int, p: int)
    requires 0 <= b < 64 && 0 <= p < 64
    ensures Octets([a, b]) != [] && Octets([a, b] + [p]) == Feed(Octets([a, b]), 2, p)
  {
    hide FillLast, O0, O1, O2;
    FillBits([O0(a, b)], b, p);
    assert [O0(a, b)] + [O1(b, 0)] == [O0(a, b), O1(b, 0)];
    assert [a, b] + [p] == [a, b, p];
  }

  lemma FeedThree(a: int, b: int, c: int, p: int)
    requires 0 <= c < 64 && 0 <= p < 64
    ensures Octets([a, b, c]) != [] && Octets([a, b, c] + [p]) == Feed(Octets([a, b, c]), 3, p)
  {
    hide FillLast, O0, O1, O2;
    FillBits([O0(a, b), O1(b, c)], c, p);
    assert [O0(a, b), O1(b, c)] + [O2(c, 0)] == [O0(a, b), O1(b, c), O2(c, 0)];
    var v := [a, b, c] + [p];
    assert v[4..] == [] && Octets(v[4..]) == [];
  }

  lemma FirstFour(v: seq<int>, p: int)
    requires |v| < 4 && IsSextets(v) && 0 <= p < 64
    ensures |v| != 0 ==> Octets(v) != []
    ensures Octets(v + [p]) == Feed(Octets(v), |v|, p)
  {
    hide Octets, Feed;
    if v == [] {
      assert v + [p] == [p];
      FeedNone(p);
    } else if |v| == 1 {
      assert v == [v[0]];
      FeedOne(v[0], p);
    } else if |v| == 2 {
      assert v == [v[0], v[1]];
      FeedTwo(v[0], v[1], p);
    } else if |v| == 3 {
      assert v == [v[0], v[1], v[2]];
      FeedThree(v[0], v[1], v[2], p);
    }
  }

  lemma Unroll(v: seq<int>)
    requires |v| >= 4
    ensures Octets(v) == Block(v) + Octets(v[4..])
  {
    hide O0, O1, O2, Block;
  }

  lemma FirstBlock(v: seq<int>, p: int)
    requires |v| >= 4
    ensures Octets(v + [p]) == Block(v) + Octets(v[4..] + [p])
  {
    hide Octets, Block;
    Unroll(v + [p]);
    BlockOfFirst(v, p);
    assert (v + [p])[4..] == v[4..] + [p];
  }

  lemma BlockOfFirst(v: seq<int>, p: int)
    requires |v| >= 4
    ensures Block(v + [p]) == Block(v)
  {
    hide O0, O1, O2;
  }

  /** Feeding sextets one by one builds the octets of all of them. */
  lemma {:induction false} OneMoreSextet(v: seq<int>, p: int)
    requires IsSextets(v) && 0 <= p < 64
    ensures |v| % 4 != 0 ==> Octets(v) != []
    ensures Octets(v + [p]) == Feed(Octets(v), |v| % 4, p)
    decreases |v|
  {
    hide Octets, Feed, Block;
    if |v| < 4 {
      FirstFour(v, p);
    } else {
      Unroll(v);
      FirstBlock(v, p);
      OneMoreSextet(v[4..], p);
      FeedSuffix(Block(v), Octets(v[4..]), |v[4..]| % 4, p);
    }
  }

  /** The first n characters are symbols and whitespace, and v are their sextets: what follows them
      only adds its own sextets. */
  ghost predicate HasRead(table: string, src: string, n: nat, v: seq<int>)
    requires |table| == 64
  {
    && n <= |src| && IsSextets(v)
    && Sextets(table, src) == if Sextets(table, src[n..]).None? then None
                              else Some(v + Sextets(table, src[n..]).value)
  }

  lemma NothingRead(table: string, src: string)
    requires |table| == 64
    ensures HasRead(table, src, 0, []) && Octets([]) == []
  {
    assert src[0..] == src;
    var r := Sextets(table, src);
    assert r.Some? ==> [] + r.value == r.value;
  }

  lemma NextCharacter(table: string, src: string, n: nat, v: seq<int>)
    requires |table| == 64 && HasRead(table, src, n, v)
    ensures n == |src| || (!IsSpace(src[n]) && src[n] == PAD64) ==> Decoded(table, src) == DropZero(Octets(v))
    ensures n < |src| && IsSpace(src[n]) ==> HasRead(table, src, n + 1, v)
    ensures n < |src| && !IsSpace(src[n]) && src[n] != PAD64 ==>
      match Find(table, src[n], 0)
      case None => Decoded(table, src) == []
      case Some(p) => HasRead(table, src, n + 1, v + [p])
  {
    hide Octets, DropZero, Find;
    assert v + [] == v;
    if n < |src| {
      assert src[n..][1..] == src[n + 1..];
      var rest, p := Sextets(table, src[n + 1..]), Find(table, src[n], 0);
      assert rest.Some? && p.Some? ==> v + ([p.value] + rest.value) == v + [p.value] + rest.value;
    }
  }

  method B64Decode(table: string, src: string) returns (target: seq<int>)
    requires |table| == 64
    ensures target == Decoded(table, src)
  {
    hide Feed, HasRead, Sextets, Octets, Decoded, Find, IsSpace;
    target := [];
    var state := 0;
    ghost var v: seq<int> := [];
    var n := 0;
    NothingRead(table, src);
    while n < |src|
      invariant 0 <= n <= |src| && HasRead(table, src, n, v) && IsSextets(v)
      invariant target == Octets(v) && state == |v| % 4
    {
      NextCharacter(table, src, n, v);
      if IsSpace(src[n]) {
        n := n + 1;
        continue;
      }
      if src[n] == PAD64 {
        break;
      }
      match Find(table, src[n], 0) {
        case None =>
          return [];
        case Some(pos) =>
          OneMoreSextet(v, pos);
          target, v := Feed(target, state, pos), v + [pos];
          state := if state == 3 then 0 else state + 1;
      }
      n := n + 1;
    }
    NextCharacter(table, src, n, v);
    if target != [] && target[|target| - 1] == 0 {
      target := target[..|target| - 1];
    }
  }

  // ---------- the round trip ----------

  function NonSpaces(s: string): string {
    if s == [] then [] else if IsSpace(s[0]) then NonSpaces(s[1..]) else [s[0]] + NonSpaces(s[1..])
  }

  lemma {:induction false} WhitespaceIgnored(table: string, s: string)
    requires |table| == 64
    ensures Sextets(table, s) == Sextets(table, NonSpaces(s))
  {
    hide Find;
    if s != [] {
      WhitespaceIgnored(table, s[1..]);
      if !IsSpace(s[0]) {
        assert NonSpaces(s)[1..] == NonSpaces(s[1..]);
      }
    }
  }

  /** The sextets of an encoding without its padding. */
  function EncodedSextets(x: seq<int>): seq<int> {
    if x == [] then []
    else if |x| == 1 then [S0(x[0]), S1(x[0], 0)]
    else if |x| == 2 then [S0(x[0]), S1(x[0], x[1]), S2(x[1], 0)]
    else [S0(x[0]), S1(x[0], x[1]), S2(x[1], x[2]), S3(x[2])] + EncodedSextets(x[3..])
  }

  /** One symbol in front puts its sextet in front, and is no whitespace. */
  lemma SymbolFirst(table: string, v: int, rest: string)
    requires IsAlphabet(table) && 0 <= v < 64
    ensures Sextets(table, rest).Some? ==>
              Sextets(table, [Symbol(table, v)] + rest) == Some([v] + Sextets(table, rest).value)
    ensures NonSpaces([Symbol(table, v)] + rest) == [Symbol(table, v)] + NonSpaces(rest)
  {
    FindSymbol(table, v);
    assert ([Symbol(table, v)] + rest)[1..] == rest;
  }

  lemma Padding(table: string)
    requires |table| == 64
    ensures Sextets(table, "=") == Some([]) && Sextets(table, "==") == Some([])
    ensures NonSpaces("=") == "=" && NonSpaces("==") == "=="
  {
    assert "="[1..] == "" && "=="[1..] == "=" && "=" + "" == "=" && "=" + "=" == "==";
  }

  lemma TwoSymbols(table: string, v0: int, v1: int, rest: string)
    requires IsAlphabet(table) && 0 <= v0 < 64 && 0 <= v1 < 64 && Sextets(table, rest).Some?
    ensures var s := [Symbol(table, v0), Symbol(table, v1)] + rest;
      Sextets(table, s) == Some([v0, v1] + Sextets(table, rest).value) && NonSpaces(s) == [Symbol(table, v0), Symbol(table, v1)] + NonSpaces(rest)
  {
    hide Sextets, NonSpaces, Symbol;
    var tail := [Symbol(table, v1)] + rest;
    SymbolFirst(table, v1, rest);
    SymbolFirst(table, v0, tail);
    assert [Symbol(table, v0), Symbol(table, v1)] + rest == [Symbol(table, v0)] + tail;
    assert [v0, v1] + Sextets(table, rest).value == [v0] + ([v1] + Sextets(table, rest).value);
    assert [Symbol(table, v0), Symbol(table, v1)] + NonSpaces(rest) == [Symbol(table, v0)] + ([Symbol(table, v1)] + NonSpaces(rest));
  }

  lemma {:induction false} EncodingIsRead(table: string, x: seq<int>)
    requires IsAlphabet(table)
    ensures Sextets(table, Rfc4648(table, x)) == Some(EncodedSextets(x))
    ensures NonSpaces(Rfc4648(table, x)) == Rfc4648(table, x)
  {
    hide Sextets, NonSpaces, Symbol, S0, S1, S2, S3;
    var r, v := Rfc4648(table, x), EncodedSextets(x);
    if x == [] {
      EmptyIsRead(table);
    } else if |x| == 1 {
      Padding(table);
      TwoSymbols(table, S0(x[0]), S1(x[0], 0), "==");
      assert r == [Symbol(table, v[0]), Symbol(table, v[1])] + "==" && v + [] == v;
    } else if |x| == 2 {
      Padding(table);
      SymbolFirst(table, v[2], "=");
      TwoSymbols(table, v[0], v[1], [Symbol(table, v[2])] + "=");
      assert r == [Symbol(table, v[0]), Symbol(table, v[1])] + ([Symbol(table, v[2])] + "=");
      assert [v[0], v[1]] + ([v[2]] + []) == v;
    } else {
      var rest := Rfc4648(table, x[3..]);
      EncodingIsRead(table, x[3..]);
      TwoSymbols(table, S2(x[1], x[2]), S3(x[2]), rest);
      var half := [Symbol(table, S2(x[1], x[2])), Symbol(table, S3(x[2]))] + rest;
      TwoSymbols(table, S0(x[0]), S1(x[0], x[1]), half);
      assert r == [Symbol(table, S0(x[0])), Symbol(table, S1(x[0], x[1]))] + half;
      assert v == [S0(x[0]), S1(x[0], x[1])] + ([S2(x[1], x[2]), S3(x[2])] + EncodedSextets(x[3..]));
    }
  }

  lemma EmptyIsRead(table: string)
    requires |table| == 64
    ensures Sextets(table, "") == Some([]) && NonSpaces("") == ""
  {
  }

  lemma ShortOctets(v0: int, v1: int, v2: int, a: int, b: int)
    ensures O0(v0, v1) == a && O1(v1, 0) == 0 ==> Octets([v0, v1]) == [a, 0]
    ensures O0(v0, v1) == a && O1(v1, v2) == b && O2(v2, 0) == 0 ==> Octets([v0, v1, v2]) == [a, b, 0]
  {
    hide O0, O1, O2;
  }

  lemma OctetsOfLast(a: int, b: int)
    requires 0 <= a < 256 && 0 <= b < 256
    ensures Octets(EncodedSextets([a])) == [a, 0]
    ensures Octets(EncodedSextets([a, b])) == [a, b, 0]
  {
    hide Octets, O0, O1, O2, S0, S1, S2, S3;
    OctetsOfSextets(a, 0, 0);
    OctetsOfSextets(a, b, 0);
    assert EncodedSextets([a]) == [S0(a), S1(a, 0)];
    assert EncodedSextets([a, b]) == [S0(a), S1(a, b), S2(b, 0)];
    ShortOctets(S0(a), S1(a, 0), 0, a, b);
    ShortOctets(S0(a), S1(a, b), S2(b, 0), a, b);
  }

  lemma OctetsOfThree(x: seq<int>)
    requires IsOctets(x) && |x| >= 3
    ensures Octets(EncodedSextets(x)) == [x[0], x[1], x[2]] + Octets(EncodedSextets(x[3..]))
  {
    hide Octets, O0, O1, O2, S0, S1, S2, S3;
    OctetsOfSextets(x[0], x[1], x[2]);
    Unroll(EncodedSextets(x));
    assert EncodedSextets(x)[4..] == EncodedSextets(x[3..]);
  }

  lemma {:induction false} OctetsOfEncoding(x: seq<int>)
    requires IsOctets(x)
    ensures Octets(EncodedSextets(x)) == if |x| % 3 == 0 then x else x + [0]
  {
    hide Octets, EncodedSextets;
    if x == [] {
      OctetsOfNothing();
    } else if |x| == 1 {
      assert x == [x[0]] && x + [0] == [x[0], 0];
      OctetsOfLast(x[0], x[0]);
    } else if |x| == 2 {
      assert x == [x[0], x[1]] && x + [0] == [x[0], x[1], 0];
      OctetsOfLast(x[0], x[1]);
    } else {
      OctetsOfThree(x);
      OctetsOfEncoding(x[3..]);
      assert x == [x[0], x[1], x[2]] + x[3..];
      assert x + [0] == [x[0], x[1], x[2]] + (x[3..] + [0]);
    }
  }

  lemma OctetsOfNothing()
    ensures Octets(EncodedSextets([])) == []
  {
  }

  /** Decoding an encoding, with whitespace put in anywhere, loses at most one trailing zero octet. */
  lemma RoundTrip(table: string, x: seq<int>, s: string)
    requires IsAlphabet(table) && IsOctets(x) && NonSpaces(s) == Rfc4648(table, x)
    ensures Decoded(table, s) == if x != [] && |x| % 3 == 0 && x[|x| - 1] == 0 then x[..|x| - 1] else x
    ensures Decoded(table, s) == x <==> x == [] || |x| % 3 != 0 || x[|x| - 1] != 0
  {
    hide Octets, Sextets, NonSpaces;
    WhitespaceIgnored(table, s);
    EncodingIsRead(table, x);
    OctetsOfEncoding(x);
  }

  /** The test vectors of RFC 4648, section 10, under the alphabet of the source. */
  lemma TestVectors()
    ensures Rfc4648(SourceTable(), []) == ""
    ensures Rfc4648(SourceTable(), [0x66]) == "Zg=="
    ensures Rfc4648(SourceTable(), [0x66, 0x6F]) == "Zm8="
    ensures Rfc4648(SourceTable(), [0x66, 0x6F, 0x6F]) == "Zm9v"
    ensures Rfc4648(SourceTable(), [0x66, 0x6F, 0x6F, 0x62, 0x61, 0x72]) == "Zm9vYmFy"
  {
    var x := [0x66, 0x6F, 0x6F, 0x62, 0x61, 0x72];
    assert x[3..] == [0x62, 0x61, 0x72] && x[3..][3..] == [];
    assert Rfc4648(SourceTable(), x[3..]) == "YmFy" + "";
    assert [0x66, 0x6F, 0x6F][3..] == [];
  }

  /** The whitespace of the C locale. */
  lemma Whitespace(c: char)
    ensures IsSpace(c) <==> c as int in {9, 10, 11, 12, 13, 32}
  {
  }

  /** The alphabet in its order. */
  lemma AlphabetInOrder(k: nat)
    ensures k < 26 ==> SourceTable()[k] as int == 'A' as int + k && SourceTable()[26 + k] as int == 'a' as int + k
    ensures k < 10 ==> SourceTable()[52 + k] as int == '0' as int + k
    ensures SourceTable()[62] == '+' && SourceTable()[63] == '/'
  {
  }

  /** The first padding character ends what is decoded, whatever follows it. */
  lemma {:induction false} PaddingEnds(table: string, s: string, rest: string)
    requires |table| == 64
    ensures Sextets(table, s + [PAD64] + rest) == Sextets(table, s)
    ensures Decoded(table, s + [PAD64] + rest) == Decoded(table, s)
    decreases |s|
  {
    var t := s + [PAD64] + rest;
    if s != [] {
      assert t[0] == s[0] && t[1..] == s[1..] + [PAD64] + rest;
      PaddingEnds(table, s[1..], rest);
    }
  }

  /** In front of the padding every character must be of the alphabet or whitespace, or nothing is decoded. */
  lemma {:induction false} BadCharacter(table: string, s: string, at: nat)
    requires |table| == 64 && at < |s| && s[at] !in table && !IsSpace(s[at]) && s[at] != PAD64 && PAD64 !in s[..at]
    ensures Decoded(table, s) == []
    decreases |s|
  {
    BadSextet(table, s, at);
  }

  lemma {:induction false} BadSextet(table: string, s: string, at: nat)
    requires |table| == 64 && at < |s| && s[at] !in table && !IsSpace(s[at]) && s[at] != PAD64 && PAD64 !in s[..at]
    ensures Sextets(table, s).None?
    decreases |s|
  {
    if at > 0 {
      assert s[..at][0] == s[0] && s[..at][1..] == s[1..][..at - 1];
      BadSextet(table, s[1..], at - 1);
    }
  }

  lemma OctetOfOne(v: int)
    ensures DropZero(Octets([v])) == if v == 0 then [] else [4 * v]
  {
    hide Octets;
    FeedNone(v);
    NoOctets();
    assert [] + [O0(v, 0)] == [O0(v, 0)];
  }

  lemma NoOctets()
    ensures Octets([]) == []
  {
  }

  /** Whatever is left over of a group is decoded too, even a single symbol. */
  lemma SymbolAlone(table: string, v: int)
    requires |table| == 64 && IsAlphabet(table) && 0 <= v < 64
    ensures Decoded(table, [Symbol(table, v)]) == if v == 0 then [] else [4 * v]
  {
    hide IsAlphabet, Sextets, Octets, DropZero, Symbol;
    assert [Symbol(table, v)] == [Symbol(table, v)] + "";
    SymbolFirst(table, v, "");
    EmptyIsRead(table);
    assert [v] + [] == [v];
    OctetOfOne(v);
  }

  /** Three octets of which the last is zero come back as two. */
  lemma ZeroIsLost(table: string, a: int, b: int)
    requires IsAlphabet(table) && 0 <= a < 256 && 0 <= b < 256
    ensures Decoded(table, Rfc4648(table, [a, b, 0])) == [a, b]
  {
    var x := [a, b, 0];
    EncodingIsRead(table, x);
    RoundTrip(table, x, Rfc4648(table, x));
    assert x[..2] == [a, b];
  }
}
