/** DNS packets of modules/dns.cpp, Pack and Fill, for RFC 1035 sections 4.1.1 to 4.1.3. */
module DnsPackets {
  import opened Wrappers
  import opened OctetSeqs
  import opened SepStream
  import opened DnsNames

  const A: int := 1
  const NS: int := 2
  const CNAME: int := 5
  const SOA: int := 6
  const PTR: int := 12
  const TXT: int := 16
  const AAAA: int := 28
  const SRV: int := 33
  const HEADER_LENGTH: nat := 12

  datatype Question = Question(name: string, qtype: int, qclass: int)

  /** Addresses are their octets; a zone of authority is made of the configuration; types that are not read have no
      data. */
  datatype Data =
    | NoData
    | Address(octets: seq<int>)
    | Host(host: string)
    | TextData(text: string)
    | Service(priority: int, weight: int, port: int, target: string)
    | Zone(server: string, admin: string, serial: int, refresh: int)

  datatype Record = Record(question: Question, ttl: int, data: Data)

  datatype Packet = Packet(
    id: int,
    flags: int,
    questions: seq<Question>,
    answers: seq<Record>,
    authorities: seq<Record>,
    additional: seq<Record>
  )

  // ---------- numbers ----------

  function U16(n: int): (b: seq<int>)
    ensures |b| == 2 && IsOctets(b)
    ensures Is16(n) ==> n == b[0] * 0x100 + b[1]
  {
    [n / 0x100 % 0x100, n % 0x100]
  }

  function U32(n: int): (b: seq<int>)
    ensures |b| == 4 && IsOctets(b)
  {
    U16(n / 0x1_0000) + U16(n)
  }

  function Get16(input: seq<int>, pos: nat): (n: int)
    requires IsOctets(input) && pos + 2 <= |input|
    ensures 0 <= n < 0x1_0000
  {
    input[pos] * 0x100 + input[pos + 1]
  }

  function Get32(input: seq<int>, pos: nat): (n: int)
    requires IsOctets(input) && pos + 4 <= |input|
    ensures 0 <= n < 0x1_0000_0000
  {
    Get16(input, pos) * 0x1_0000 + Get16(input, pos + 2)
  }

  predicate Is16(n: int) {
    0 <= n < 0x1_0000
  }

  lemma Read16(input: seq<int>, pos: nat, n: int)
    requires IsOctets(input) && Is16(n) && Holds(input, pos, U16(n))
    ensures pos + 2 <= |input| && Get16(input, pos) == n
  {
    assert input[pos..pos + 2][0] == input[pos] && input[pos..pos + 2][1] == input[pos + 1];
  }

  lemma Quotient(n: int, d: int, q: int, r: int)
    requires d > 0 && n == q * d + r && 0 <= r < d
    ensures n / d == q && n % d == r
  {
    var k := q - n / d;
    assert k * d == n % d - r;
    assert k >= 1 ==> k * d >= d;
    assert k <= -1 ==> k * d <= -d;
  }

  lemma LowHalf(n: int)
    ensures U16(n) == U16(n % 0x1_0000)
  {
    var h, l := n / 0x1_0000, n % 0x1_0000;
    var x, y := l / 0x100, l % 0x100;
    assert n == (0x100 * h + x) * 0x100 + y;
    Quotient(n, 0x100, 0x100 * h + x, y);
    Quotient(0x100 * h + x, 0x100, h, x);
    Quotient(x, 0x100, 0, x);
  }

  lemma Read32(input: seq<int>, pos: nat, n: int)
    requires IsOctets(input) && 0 <= n < 0x1_0000_0000 && Holds(input, pos, U32(n))
    ensures pos + 4 <= |input| && Get32(input, pos) == n
  {
    HoldsParts(input, pos, U16(n / 0x1_0000), U16(n));
    LowHalf(n);
    hide U16;
    Read16(input, pos, n / 0x1_0000);
    Read16(input, pos + 2, n % 0x1_0000);
  }

  // ---------- the encoding ----------

  function EncodeQuestion(q: Question): (b: seq<int>)
    ensures IsOctets(b)
  {
    EncodeName(q.name) + (U16(q.qtype) + U16(q.qclass))
  }

  function EncodeData(r: Record): (b: seq<int>)
    requires Packs(r)
    ensures IsOctets(b)
  {
    if Dataless(r.question.qtype) then []
    else if r.data.Address? then r.data.octets
    else if r.data.Zone? then EncodeZone(r.data)
    else EncodeName(r.data.host)
  }

  const EXPIRE: int := 604800

  /** The mailbox of the administrator as a name. */
  function AtsAsDots(s: string): (r: string)
    ensures |r| == |s|
  {
    seq(|s|, i requires 0 <= i < |s| => if s[i] == '@' then '.' else s[i])
  }

  function EncodeTimes(serial: int, refresh: int): (b: seq<int>)
    ensures IsOctets(b) && |b| == 20
  {
    U32(serial) + (U32(refresh) + (U32(refresh) + (U32(EXPIRE) + U32(0))))
  }

  /** The primary server, the administrator and the five numbers of a start of authority. */
  function EncodeZone(d: Data): (b: seq<int>)
    requires d.Zone?
    ensures IsOctets(b)
  {
    EncodeName(d.server) + (EncodeName(AtsAsDots(d.admin)) + EncodeTimes(d.serial, d.refresh))
  }

  /** The length of the data and the data. */
  function EncodeTail(r: Record): (b: seq<int>)
    requires Packs(r)
    ensures IsOctets(b)
  {
    if Dataless(r.question.qtype) then [] else U16(|EncodeData(r)|) + EncodeData(r)
  }

  function EncodeRecord(r: Record): (b: seq<int>)
    requires Packs(r)
    ensures IsOctets(b)
  {
    EncodeQuestion(r.question) + (U32(r.ttl) + EncodeTail(r))
  }

  /** Types for which Pack writes no data, and not even its length. */
  predicate Dataless(qtype: int) {
    qtype !in {A, AAAA, CNAME, PTR, NS, SOA}
  }

  /** Records with data of their type, where it is written. */
  predicate Packs(r: Record) {
    || (r.question.qtype == A && r.data.Address? && |r.data.octets| == 4 && IsOctets(r.data.octets))
    || (r.question.qtype == AAAA && r.data.Address? && |r.data.octets| == 16 && IsOctets(r.data.octets))
    || (r.question.qtype in {CNAME, PTR, NS} && r.data.Host?)
    || (r.question.qtype == SOA && r.data.Zone?)
    || Dataless(r.question.qtype)
  }

  /** Records that are written and read alike. */
  predicate Typed(r: Record) {
    Packs(r) && r.question.qtype in {A, AAAA, CNAME, PTR}
  }

  function EncodeQuestions(qs: seq<Question>): (b: seq<int>)
    ensures IsOctets(b)
  {
    if qs == [] then [] else EncodeQuestion(qs[0]) + EncodeQuestions(qs[1..])
  }

  ghost predicate AllPack(rs: seq<Record>) {
    forall i :: 0 <= i < |rs| ==> Packs(rs[i])
  }

  ghost function EncodeRecords(rs: seq<Record>): (b: seq<int>)
    requires AllPack(rs)
    ensures IsOctets(b)
  {
    if rs == [] then [] else EncodeRecord(rs[0]) + EncodeRecords(rs[1..])
  }

  function EncodeHeader(p: Packet): (b: seq<int>)
    ensures IsOctets(b) && |b| == HEADER_LENGTH
  {
    U16(p.id) + U16(p.flags) + U16(|p.questions|) + U16(|p.answers|) + U16(|p.authorities|) + U16(|p.additional|)
  }

  ghost predicate Packable(p: Packet) {
    AllPack(p.answers) && AllPack(p.authorities) && AllPack(p.additional)
  }

  ghost function EncodePacket(p: Packet): (b: seq<int>)
    requires Packable(p)
  {
    EncodeHeader(p) + (EncodeQuestions(p.questions) + EncodeSections(p))
  }

  ghost function EncodeSections(p: Packet): (b: seq<int>)
    requires Packable(p)
    ensures IsOctets(b)
  {
    EncodeRecords(p.answers) + (EncodeRecords(p.authorities) + EncodeRecords(p.additional))
  }

  // ---------- packing ----------

  /** The checks of Pack on the way through the items, from a position on. */
  predicate QuestionFits(q: Question, pos: nat, size: nat) {
    pos + |q.name| + 2 <= size && pos + |EncodeName(q.name)| + 4 < size
  }

  predicate ZoneFits(d: Data, pos: nat, size: nat)
    requires d.Zone?
  {
    var at := pos + |EncodeName(d.server)|;
    && pos + |d.server| + 2 <= size
    && at + |d.admin| + 2 <= size
    && at + |EncodeName(AtsAsDots(d.admin))| + 20 < size
  }

  predicate TailFits(r: Record, pos: nat, size: nat)
    requires Packs(r)
  {
    if Dataless(r.question.qtype) then true
    else if r.data.Address? then pos + 2 + |r.data.octets| <= size
    else if r.data.Zone? then pos + 2 < size && ZoneFits(r.data, pos + 2, size)
    else pos + 2 < size && pos + 2 + |r.data.host| + 2 <= size
  }

  predicate RecordFits(r: Record, pos: nat, size: nat)
    requires Packs(r)
  {
    var at := pos + |EncodeName(r.question.name)|;
    && pos + |r.question.name| + 2 <= size
    && at + 8 < size
    && TailFits(r, at + 8, size)
  }

  predicate QuestionsFit(qs: seq<Question>, pos: nat, size: nat) {
    qs == [] || (QuestionFits(qs[0], pos, size) && QuestionsFit(qs[1..], pos + |EncodeQuestion(qs[0])|, size))
  }

  ghost predicate RecordsFit(rs: seq<Record>, pos: nat, size: nat)
    requires AllPack(rs)
  {
    rs == [] || (RecordFits(rs[0], pos, size) && RecordsFit(rs[1..], pos + |EncodeRecord(rs[0])|, size))
  }

  method Put16(output: array<int>, pos: nat, n: int)
    requires pos + 2 <= output.Length
    modifies output
    ensures Wrote(old(output[..]), output[..], pos, U16(n))
  {
    output[pos] := n / 0x100 % 0x100;
    output[pos + 1] := n % 0x100;
    assert output[..][pos..pos + 2] == U16(n);
  }

  method Put32(output: array<int>, pos: nat, n: int)
    requires pos + 4 <= output.Length
    modifies output
    ensures Wrote(old(output[..]), output[..], pos, U32(n))
  {
    hide Wrote, U16;
    ghost var before := output[..];
    Put16(output, pos, n / 0x1_0000);
    ghost var middle := output[..];
    Put16(output, pos + 2, n);
    WroteMore(before, middle, output[..], pos, U16(n / 0x1_0000), U16(n));
  }

  method PutOctets(output: array<int>, pos: nat, b: seq<int>)
    requires pos + |b| <= output.Length
    modifies output
    ensures Wrote(old(output[..]), output[..], pos, b)
  {
    for i := 0 to |b|
      invariant forall k :: 0 <= k < i ==> output[pos + k] == b[k]
      invariant forall k :: 0 <= k < output.Length && !(pos <= k < pos + |b|) ==> output[k] == old(output[k])
    {
      output[pos + i] := b[i];
    }
    assert output[..][pos..pos + |b|] == b;
  }

  method PackQuestion(output: array<int>, pos: nat, q: Question) returns (next: Option<nat>)
    modifies output
    ensures next.None? <==> !QuestionFits(q, pos, output.Length)
    ensures next.Some? ==> next.value == pos + |EncodeQuestion(q)| && Wrote(old(output[..]), output[..], pos, EncodeQuestion(q))
  {
    hide Wrote, U16, EncodeName;
    ghost var s0 := output[..];
    next := PackName(output, pos, q.name);
    if next.None? || next.value + 4 >= output.Length {
      return None;
    }
    var at := next.value;
    ghost var s1 := output[..];
    Put16(output, at, q.qtype);
    ghost var s2 := output[..];
    Put16(output, at + 2, q.qclass);
    WroteMore(s1, s2, output[..], at, U16(q.qtype), U16(q.qclass));
    WroteMore(s0, s1, output[..], pos, EncodeName(q.name), U16(q.qtype) + U16(q.qclass));
    next := Some(at + 4);
  }

  method PackRecord(output: array<int>, pos: nat, r: Record) returns (next: Option<nat>)
    requires Packs(r)
    modifies output
    ensures next.None? <==> !RecordFits(r, pos, output.Length)
    ensures next.Some? ==> next.value == pos + |EncodeRecord(r)| && Wrote(old(output[..]), output[..], pos, EncodeRecord(r))
  {
    hide Wrote, U16, U32, EncodeName;
    var q := r.question;
    ghost var s0 := output[..];
    next := PackName(output, pos, q.name);
    if next.None? || next.value + 8 >= output.Length {
      return None;
    }
    var at := next.value;
    ghost var s1 := output[..];
    Put16(output, at, q.qtype);
    ghost var s2 := output[..];
    Put16(output, at + 2, q.qclass);
    WroteMore(s1, s2, output[..], at, U16(q.qtype), U16(q.qclass));
    WroteMore(s0, s1, output[..], pos, EncodeName(q.name), U16(q.qtype) + U16(q.qclass));
    ghost var s3 := output[..];
    Put32(output, at + 4, r.ttl);
    ghost var s4 := output[..];
    next := PackData(output, at + 8, r);
    if next.Some? {
      ghost var d := EncodeTail(r);
      WroteMore(s3, s4, output[..], at + 4, U32(r.ttl), d);
      WroteMore(s0, s3, output[..], pos, EncodeQuestion(q), U32(r.ttl) + d);
    }
  }

  /** The data length and the data; the length of a name is written behind it. */
  method PackData(output: array<int>, pos: nat, r: Record) returns (next: Option<nat>)
    requires Packs(r) && pos <= output.Length
    modifies output
    ensures next.None? <==> !TailFits(r, pos, output.Length)
    ensures next.Some? ==> next.value == pos + |EncodeTail(r)| && Wrote(old(output[..]), output[..], pos, EncodeTail(r))
  {
    hide Wrote, U16, EncodeName, EncodeZone, ZoneFits;
    ghost var s0 := output[..];
    if r.question.qtype == A || r.question.qtype == AAAA {
      var size := if r.question.qtype == A then 4 else 16;
      if pos + 2 + size > output.Length {
        return None;
      }
      Put16(output, pos, size);
      ghost var s1 := output[..];
      PutOctets(output, pos + 2, r.data.octets);
      WroteMore(s0, s1, output[..], pos, U16(size), r.data.octets);
      next := Some(pos + 2 + size);
    } else if Dataless(r.question.qtype) {
      WroteNothing(s0, pos);
      next := Some(pos);
    } else {
      if pos + 2 >= output.Length {
        return None;
      }
      if r.question.qtype == SOA {
        next := PackZone(output, pos + 2, r.data);
      } else {
        next := PackName(output, pos + 2, r.data.host);
      }
      if next.Some? {
        ghost var s1 := output[..];
        Put16(output, pos, next.value - pos - 2);
        WroteBefore(s0, s1, output[..], pos, U16(|EncodeData(r)|), EncodeData(r));
      }
    }
  }

  /** The data of a start of authority. */
  method PackZone(output: array<int>, pos: nat, d: Data) returns (next: Option<nat>)
    requires d.Zone?
    modifies output
    ensures next.None? <==> !ZoneFits(d, pos, output.Length)
    ensures next.Some? ==> next.value == pos + |EncodeZone(d)| && Wrote(old(output[..]), output[..], pos, EncodeZone(d))
  {
    hide Wrote, EncodeName, EncodeTimes, AtsAsDots;
    ghost var s0 := output[..];
    next := PackName(output, pos, d.server);
    if next.None? {
      return None;
    }
    var middle := next.value;
    ghost var s1 := output[..];
    next := PackName(output, middle, AtsAsDots(d.admin));
    if next.None? || next.value + 20 >= output.Length {
      return None;
    }
    var at := next.value;
    ghost var s2 := output[..];
    PackTimes(output, at, d.serial, d.refresh);
    WroteMore(s1, s2, output[..], middle, EncodeName(AtsAsDots(d.admin)), EncodeTimes(d.serial, d.refresh));
    WroteMore(s0, s1, output[..], pos, EncodeName(d.server), EncodeName(AtsAsDots(d.admin)) + EncodeTimes(d.serial, d.refresh));
    next := Some(at + 20);
  }

  /** Serial, refresh, retry, expire and minimum. */
  method PackTimes(output: array<int>, pos: nat, serial: int, refresh: int)
    requires pos + 20 <= output.Length
    modifies output
    ensures Wrote(old(output[..]), output[..], pos, EncodeTimes(serial, refresh))
  {
    hide Wrote, U32;
    ghost var s0 := output[..];
    Put32(output, pos, serial);
    ghost var s1 := output[..];
    Put32(output, pos + 4, refresh);
    ghost var s2 := output[..];
    Put32(output, pos + 8, refresh);
    ghost var s3 := output[..];
    Put32(output, pos + 12, EXPIRE);
    ghost var s4 := output[..];
    Put32(output, pos + 16, 0);
    WroteMore(s3, s4, output[..], pos + 12, U32(EXPIRE), U32(0));
    WroteMore(s2, s3, output[..], pos + 8, U32(refresh), U32(EXPIRE) + U32(0));
    WroteMore(s1, s2, output[..], pos + 4, U32(refresh), U32(refresh) + (U32(EXPIRE) + U32(0)));
    WroteMore(s0, s1, output[..], pos, U32(serial), U32(refresh) + (U32(refresh) + (U32(EXPIRE) + U32(0))));
  }

  lemma WroteBefore(s0: seq<int>, s1: seq<int>, s2: seq<int>, from: nat, b: seq<int>, c: seq<int>)
    requires Wrote(s0, s1, from + |b|, c) && Wrote(s1, s2, from, b)
    ensures Wrote(s0, s2, from, b + c)
  {
    forall i | 0 <= i < |b + c|
      ensures s2[from + i] == (b + c)[i]
    {
      if i < |b| {
        assert s2[from + i] == s2[from..from + |b|][i];
      } else {
        assert s1[from + i] == s1[from + |b|..from + |b| + |c|][i - |b|];
      }
    }
    assert s2[from..from + |b + c|] == b + c;
  }

  lemma WroteNothing(s: seq<int>, pos: nat)
    requires pos <= |s|
    ensures Wrote(s, s, pos, [])
  {
    assert s[pos..pos] == [];
  }

  /** The name under which an address is looked up, from its text; none for text that is no address. */
  type Reverse = string -> Option<string>

  /** A question of type PTR asks for the name of an address instead. */
  function Asked(reverse: Reverse, q: Question): Option<Question> {
    if q.qtype != PTR then Some(q)
    else
      var name := reverse(q.name);
      if name.None? then None else Some(q.(name := name.value))
  }

  predicate AllAsked(reverse: Reverse, qs: seq<Question>) {
    forall i :: 0 <= i < |qs| ==> Asked(reverse, qs[i]).Some?
  }

  function AskedAll(reverse: Reverse, qs: seq<Question>): (r: seq<Question>)
    requires AllAsked(reverse, qs)
    ensures |r| == |qs| && forall i :: 0 <= i < |qs| ==> Asked(reverse, qs[i]) == Some(r[i])
  {
    seq(|qs|, i requires 0 <= i < |qs| => Asked(reverse, qs[i]).value)
  }

  lemma AskedKeeps(reverse: Reverse, qs: seq<Question>)
    requires AllAsked(reverse, qs)
    ensures forall k :: 0 <= k < |qs| ==>
      var q, a := qs[k], AskedAll(reverse, qs)[k];
      && a.qtype == q.qtype && a.qclass == q.qclass
      && if q.qtype == PTR then reverse(q.name) == Some(a.name) else a.name == q.name
  {
  }

  /** The loop over the questions; those of type PTR are rewritten. */
  method PackQuestions(reverse: Reverse, output: array<int>, pos: nat, qs: seq<Question>) returns (next: Option<nat>, asked: seq<Question>)
    requires pos <= output.Length
    modifies output
    ensures next.None? <==> !(AllAsked(reverse, qs) && QuestionsFit(AskedAll(reverse, qs), pos, output.Length))
    ensures |asked| <= |qs| && (forall k :: 0 <= k < |asked| ==> Asked(reverse, qs[k]) == Some(asked[k]))
    ensures next.Some? ==> |asked| == |qs| && next.value == pos + |EncodeQuestions(asked)|
    ensures next.Some? ==> Wrote(old(output[..]), output[..], pos, EncodeQuestions(asked))
  {
    hide Wrote, EncodeQuestion, EncodeQuestions, QuestionsFit, QuestionFits, Asked;
    ghost var s0 := output[..];
    var at := pos;
    WroteNothing(s0, pos);
    asked := [];
    NoQuestions(pos, output.Length);
    for i := 0 to |qs|
      invariant |asked| == i && forall k :: 0 <= k < i ==> Asked(reverse, qs[k]) == Some(asked[k])
      invariant at == pos + |EncodeQuestions(asked)| && at <= output.Length
      invariant Wrote(s0, output[..], pos, EncodeQuestions(asked)) && QuestionsFit(asked, pos, output.Length)
    {
      ghost var now := output[..];
      var q := Asked(reverse, qs[i]);
      if q.None? {
        return None, asked;
      }
      QuestionsFitGrow(asked, q.value, pos, output.Length);
      next := PackQuestion(output, at, q.value);
      if next.None? {
        if AllAsked(reverse, qs) {
          assert AskedAll(reverse, qs)[..i + 1] == asked + [q.value];
          QuestionsFitPrefix(AskedAll(reverse, qs), i + 1, pos, output.Length);
        }
        return None, asked + [q.value];
      }
      WroteMore(s0, now, output[..], pos, EncodeQuestions(asked), EncodeQuestion(q.value));
      EncodeQuestionsGrow(asked, q.value);
      WroteWithin(now, output[..], at, EncodeQuestion(q.value));
      asked := asked + [q.value];
      at := next.value;
    }
    assert asked == AskedAll(reverse, qs);
    next := Some(at);
  }

  lemma NoQuestions(pos: nat, size: nat)
    ensures EncodeQuestions([]) == [] && QuestionsFit([], pos, size)
  {
  }

  lemma {:induction false} QuestionsFitGrow(qs: seq<Question>, q: Question, pos: nat, size: nat)
    ensures QuestionsFit(qs + [q], pos, size) <==> QuestionsFit(qs, pos, size) && QuestionFits(q, pos + |EncodeQuestions(qs)|, size)
  {
    hide EncodeQuestion, QuestionFits;
    var all := qs + [q];
    if qs == [] {
      assert all == [q] && all[1..] == [];
    } else {
      assert all[0] == qs[0] && all[1..] == qs[1..] + [q];
      QuestionsFitGrow(qs[1..], q, pos + |EncodeQuestion(qs[0])|, size);
    }
  }

  lemma {:induction false} QuestionsFitPrefix(qs: seq<Question>, k: nat, pos: nat, size: nat)
    requires k <= |qs|
    ensures QuestionsFit(qs, pos, size) ==> QuestionsFit(qs[..k], pos, size)
    decreases k
  {
    hide EncodeQuestion, QuestionFits;
    if k > 0 {
      assert qs[..k][0] == qs[0] && qs[..k][1..] == qs[1..][..k - 1];
      QuestionsFitPrefix(qs[1..], k - 1, pos + |EncodeQuestion(qs[0])|, size);
    }
  }

  lemma WroteWithin(s: seq<int>, t: seq<int>, pos: nat, b: seq<int>)
    requires Wrote(s, t, pos, b)
    ensures pos + |b| <= |s| == |t|
  {
  }

  lemma {:induction false} EncodeQuestionsGrow(qs: seq<Question>, q: Question)
    ensures EncodeQuestions(qs + [q]) == EncodeQuestions(qs) + EncodeQuestion(q)
  {
    hide EncodeQuestion;
    var all := qs + [q];
    if qs == [] {
      assert all == [q] && all[1..] == [];
      assert EncodeQuestions(all) == EncodeQuestion(q) + [];
    } else {
      EncodeQuestionsGrow(qs[1..], q);
      assert all[0] == qs[0] && all[1..] == qs[1..] + [q];
    }
  }

  lemma RecordsUnfold(rs: seq<Record>)
    requires AllPack(rs) && rs != []
    ensures Packs(rs[0]) && AllPack(rs[1..]) && EncodeRecords(rs) == EncodeRecord(rs[0]) + EncodeRecords(rs[1..])
  {
  }

  lemma AllPackGrow(rs: seq<Record>, r: Record)
    requires AllPack(rs) && Packs(r)
    ensures AllPack(rs + [r])
  {
  }

  lemma {:induction false} EncodeRecordsGrow(rs: seq<Record>, r: Record)
    requires AllPack(rs) && Packs(r)
    ensures AllPack(rs + [r]) && EncodeRecords(rs + [r]) == EncodeRecords(rs) + EncodeRecord(r)
  {
    hide EncodeRecord, EncodeRecords, Packs, AllPack;
    var all := rs + [r];
    AllPackGrow(rs, r);
    RecordsUnfold(all);
    if rs == [] {
      assert all[0] == r && all[1..] == [];
      NoRecords();
      assert EncodeRecord(r) + [] == EncodeRecord(r) == [] + EncodeRecord(r);
    } else {
      RecordsUnfold(rs);
      EncodeRecordsGrow(rs[1..], r);
      assert all[0] == rs[0] && all[1..] == rs[1..] + [r];
      Regroup(EncodeRecord(rs[0]), EncodeRecords(rs[1..]), EncodeRecord(r));
    }
  }

  method PackRecords(output: array<int>, pos: nat, rs: seq<Record>) returns (next: Option<nat>)
    requires pos <= output.Length && AllPack(rs)
    modifies output
    ensures next.None? <==> !RecordsFit(rs, pos, output.Length)
    ensures next.Some? ==> next.value == pos + |EncodeRecords(rs)| && Wrote(old(output[..]), output[..], pos, EncodeRecords(rs))
  {
    hide Wrote, EncodeRecord, RecordFits, Packs;
    ghost var s0 := output[..];
    var at := pos;
    WroteNothing(s0, pos);
    assert rs[0..] == rs && rs[..0] == [];
    for i := 0 to |rs|
      invariant at == pos + |EncodeRecords(rs[..i])| && at <= output.Length
      invariant Wrote(s0, output[..], pos, EncodeRecords(rs[..i]))
      invariant RecordsFit(rs, pos, output.Length) <==> RecordsFit(rs[i..], at, output.Length)
    {
      assert rs[i..][0] == rs[i] && rs[i..][1..] == rs[i + 1..];
      ghost var now := output[..];
      next := PackRecord(output, at, rs[i]);
      if next.None? {
        return None;
      }
      WroteMore(s0, now, output[..], pos, EncodeRecords(rs[..i]), EncodeRecord(rs[i]));
      EncodeRecordsGrow(rs[..i], rs[i]);
      assert rs[..i + 1] == rs[..i] + [rs[i]];
      WroteWithin(now, output[..], at, EncodeRecord(rs[i]));
      at := next.value;
    }
    assert rs[..|rs|] == rs;
    next := Some(at);
  }

  ghost predicate Fits(p: Packet, size: nat)
    requires Packable(p)
  {
    && size >= HEADER_LENGTH
    && QuestionsFit(p.questions, HEADER_LENGTH, size)
    && SectionsFit(p, HEADER_LENGTH + |EncodeQuestions(p.questions)|, size)
  }

  ghost predicate SectionsFit(p: Packet, pos: nat, size: nat)
    requires Packable(p)
  {
    var a := pos + |EncodeRecords(p.answers)|;
    && RecordsFit(p.answers, pos, size)
    && RecordsFit(p.authorities, a, size)
    && RecordsFit(p.additional, a + |EncodeRecords(p.authorities)|, size)
  }

  method PackHeader(output: array<int>, p: Packet)
    requires output.Length >= HEADER_LENGTH
    modifies output
    ensures Wrote(old(output[..]), output[..], 0, EncodeHeader(p))
  {
    output[0], output[1] := p.id / 0x100 % 0x100, p.id % 0x100;
    output[2], output[3] := p.flags / 0x100 % 0x100, p.flags % 0x100;
    output[4], output[5] := |p.questions| / 0x100 % 0x100, |p.questions| % 0x100;
    output[6], output[7] := |p.answers| / 0x100 % 0x100, |p.answers| % 0x100;
    output[8], output[9] := |p.authorities| / 0x100 % 0x100, |p.authorities| % 0x100;
    output[10], output[11] := |p.additional| / 0x100 % 0x100, |p.additional| % 0x100;
    assert output[..][0..12] == EncodeHeader(p);
  }

  /** The packet with its questions as they are sent. */
  function AskedPacket(reverse: Reverse, p: Packet): Packet
    requires AllAsked(reverse, p.questions)
  {
    p.(questions := AskedAll(reverse, p.questions))
  }

  /** Pack; no length is its exception. Questions of type PTR are rewritten in the packet itself. */
  method Pack(reverse: Reverse, output: array<int>, p: Packet) returns (length: Option<nat>, asked: Packet)
    requires Packable(p)
    modifies output
    ensures length.None? <==> !(AllAsked(reverse, p.questions) && Fits(AskedPacket(reverse, p), output.Length))
    ensures asked == p.(questions := asked.questions) && |asked.questions| == |p.questions|
    ensures length.Some? ==> forall k :: 0 <= k < |p.questions| ==>
      var q, a := p.questions[k], asked.questions[k];
      && a.qtype == q.qtype && a.qclass == q.qclass
      && if q.qtype == PTR then reverse(q.name) == Some(a.name) else a.name == q.name
    ensures forall k :: 0 <= k < |p.questions| ==>
      asked.questions[k] == p.questions[k] || Some(asked.questions[k]) == Asked(reverse, p.questions[k])
    ensures length.Some? ==> asked == AskedPacket(reverse, p) && length.value == |EncodePacket(asked)|
    ensures length.Some? ==> Wrote(old(output[..]), output[..], 0, EncodePacket(asked))
  {
    hide Wrote, EncodeHeader, EncodeQuestions, EncodeRecords, QuestionsFit, RecordsFit, AllPack, Asked;
    asked := p;
    if output.Length < HEADER_LENGTH {
      return None, p;
    }
    ghost var s0 := output[..];
    PackHeader(output, p);
    ghost var s1 := output[..];
    var qs;
    length, qs := PackQuestions(reverse, output, HEADER_LENGTH, p.questions);
    if length.None? {
      return None, p.(questions := qs + p.questions[|qs|..]);
    }
    asked := p.(questions := qs);
    assert qs == AskedAll(reverse, p.questions);
    AskedKeeps(reverse, p.questions);
    assert EncodeHeader(asked) == EncodeHeader(p) by {
      SameHeader(p, asked);
    }
    ghost var s2 := output[..];
    var q := length.value;
    WroteWithin(s1, s2, HEADER_LENGTH, EncodeQuestions(qs));
    WroteMore(s0, s1, s2, 0, EncodeHeader(p), EncodeQuestions(qs));
    length := PackSections(output, q, p);
    if length.Some? {
      WroteMore(s1, s2, output[..], HEADER_LENGTH, EncodeQuestions(qs), EncodeSections(p));
      WroteMore(s0, s1, output[..], 0, EncodeHeader(p), EncodeQuestions(qs) + EncodeSections(p));
    }
  }

  lemma SameHeader(p: Packet, p': Packet)
    requires p.id == p'.id && p.flags == p'.flags && |p.questions| == |p'.questions|
    requires p.answers == p'.answers && p.authorities == p'.authorities && p.additional == p'.additional
    ensures EncodeHeader(p) == EncodeHeader(p')
  {
  }

  /** The loop over answers, authorities and additional records. */
  method PackSections(output: array<int>, pos: nat, p: Packet) returns (length: Option<nat>)
    requires pos <= output.Length && Packable(p)
    modifies output
    ensures length.None? <==> !SectionsFit(p, pos, output.Length)
    ensures length.Some? ==> length.value == pos + |EncodeSections(p)| && Wrote(old(output[..]), output[..], pos, EncodeSections(p))
  {
    hide Wrote, EncodeRecords, RecordsFit, AllPack;
    ghost var s2 := output[..];
    length := PackRecords(output, pos, p.answers);
    if length.None? {
      return None;
    }
    ghost var s3 := output[..];
    var a := length.value;
    WroteWithin(s2, s3, pos, EncodeRecords(p.answers));
    length := PackRecords(output, a, p.authorities);
    if length.None? {
      return None;
    }
    ghost var s4 := output[..];
    var n := length.value;
    WroteWithin(s3, s4, a, EncodeRecords(p.authorities));
    length := PackRecords(output, n, p.additional);
    if length.None? {
      return None;
    }
    WroteMore(s3, s4, output[..], a, EncodeRecords(p.authorities), EncodeRecords(p.additional));
    WroteMore(s2, s3, output[..], pos, EncodeRecords(p.answers), EncodeRecords(p.authorities) + EncodeRecords(p.additional));
  }

  // ---------- reading ----------

  predicate IsValidName(name: string) {
    forall i :: 0 <= i < |name| ==>
      '0' <= name[i] <= '9' || 'a' <= name[i] <= 'z' || 'A' <= name[i] <= 'Z' || name[i] == '.' || name[i] == '-'
  }

  /** Letters, digits, dots and hyphens, and none of the characters next to those. */
  lemma ValidCharacters()
    ensures IsValidName("azAZ09.-") && forall c: char :: c in ",/:@[`{_ " ==> !IsValidName([c])
  {
    forall c: char | c in ",/:@[`{_ "
      ensures !IsValidName([c])
    {
      assert [c][0] == c;
    }
  }

  /** The name at a position, if there is one and its characters are allowed, and where it ends. */
  function ReadName(input: seq<int>, pos: nat): (r: Option<(string, nat)>)
    requires IsOctets(input)
  {
    if pos >= |input| then None
    else
      var labels := LabelsAt(input, pos, |input|);
      if labels.None? then None else Some((Dotted(labels.value), EndAt(input, pos)))
  }

  function ReadQuestion(input: seq<int>, pos: nat): Option<(Question, nat)>
    requires IsOctets(input)
  {
    var name := ReadName(input, pos);
    if name.None? || name.value.1 + 4 > |input| || !IsValidName(name.value.0) then None
    else
      var at := name.value.1;
      Some((Question(name.value.0, Get16(input, at), Get16(input, at + 2)), at + 4))
  }

  function ReadAddress(input: seq<int>, pos: nat, size: nat): Option<(Data, nat)> {
    if pos + size > |input| then None else Some((Address(input[pos..pos + size]), pos + size))
  }

  function ReadHost(input: seq<int>, pos: nat): Option<(Data, nat)>
    requires IsOctets(input)
  {
    var name := ReadName(input, pos);
    if name.None? || !IsValidName(name.value.0) then None else Some((Host(name.value.0), name.value.1))
  }

  function ReadData(input: seq<int>, pos: nat, qtype: int, rdlength: nat): Option<(Data, nat)>
    requires IsOctets(input)
  {
    if qtype == A then ReadAddress(input, pos, 4)
    else if qtype == AAAA then ReadAddress(input, pos, 16)
    else if qtype == CNAME || qtype == PTR then ReadHost(input, pos)
    else if qtype == TXT then
      if pos + rdlength > |input| || pos >= |input| || pos + 1 + input[pos] > |input| then None
      else Some((TextData(Text(input[pos + 1..pos + 1 + input[pos]])), pos + rdlength))
    else if qtype == SRV then
      if rdlength < 6 || pos + rdlength > |input| then None
      else
        var name := ReadName(input, pos + 6);
        if name.None? || !IsValidName(name.value.0) then None
        else Some((Service(Get16(input, pos), Get16(input, pos + 2), Get16(input, pos + 4), name.value.0), name.value.1))
    else Some((NoData, pos))
  }

  function ReadRecord(input: seq<int>, pos: nat): Option<(Record, nat)>
    requires IsOctets(input)
  {
    var q := ReadQuestion(input, pos);
    if q.None? || q.value.1 + 6 > |input| then None
    else
      var at := q.value.1;
      var data := ReadData(input, at + 6, q.value.0.qtype, Get16(input, at + 4));
      if data.None? then None else Some((Record(q.value.0, Get32(input, at), data.value.0), data.value.1))
  }

  /** What is read of n items before the first one that fails. */
  datatype Taken<T> = Taken(items: seq<T>, pos: nat, all: bool)

  function ReadQuestions(input: seq<int>, pos: nat, n: nat): Taken<Question>
    requires IsOctets(input)
    decreases n
  {
    if n == 0 then Taken([], pos, true)
    else
      var q := ReadQuestion(input, pos);
      if q.None? then Taken([], pos, false)
      else
        var rest := ReadQuestions(input, q.value.1, n - 1);
        rest.(items := [q.value.0] + rest.items)
  }

  function ReadRecords(input: seq<int>, pos: nat, n: nat): Taken<Record>
    requires IsOctets(input)
    decreases n
  {
    if n == 0 then Taken([], pos, true)
    else
      var r := ReadRecord(input, pos);
      if r.None? then Taken([], pos, false)
      else
        var rest := ReadRecords(input, r.value.1, n - 1);
        rest.(items := [r.value.0] + rest.items)
  }

  /** What Fill makes of the octets: questions and answers must all be there, of the rest what can be read. */
  function Filled(input: seq<int>): Option<Packet>
    requires IsOctets(input)
  {
    if |input| < HEADER_LENGTH then None
    else
      var qs := ReadQuestions(input, HEADER_LENGTH, Get16(input, 4));
      if !qs.all then None
      else
        var ans := ReadRecords(input, qs.pos, Get16(input, 6));
        if !ans.all then None
        else
          var auth := ReadRecords(input, ans.pos, Get16(input, 8));
          var add := if auth.all then ReadRecords(input, auth.pos, Get16(input, 10)) else Taken([], auth.pos, false);
          Some(Packet(Get16(input, 0), Get16(input, 2), qs.items, ans.items, auth.items, add.items))
  }

  method UnpackQuestion(input: seq<int>, pos: nat) returns (r: Option<(Question, nat)>)
    requires IsOctets(input) && |input| < 0x1_0000
    ensures r == ReadQuestion(input, pos)
    ensures r.Some? ==> pos < r.value.1 <= |input|
  {
    hide LabelsAt, EndAt, Dotted;
    var name := UnpackName(input, pos);
    if name.BadName? || name.pos + 4 > |input| {
      return None;
    }
    if !IsValidName(name.name) {
      return None;
    }
    var at := name.pos;
    var qtype := input[at] * 0x100 + input[at + 1];
    at := at + 2;
    var qclass := input[at] * 0x100 + input[at + 1];
    at := at + 2;
    r := Some((Question(name.name, qtype, qclass), at));
  }

  /** The switch over the record type. */
  method UnpackData(input: seq<int>, pos: nat, qtype: int, rdlength: nat) returns (r: Option<(Data, nat)>)
    requires IsOctets(input) && |input| < 0x1_0000 && pos <= |input|
    ensures r == ReadData(input, pos, qtype, rdlength)
    ensures r.Some? ==> pos <= r.value.1 <= |input|
  {
    hide LabelsAt, EndAt, Dotted;
    match qtype
    case 1 =>
      if pos + 4 > |input| {
        return None;
      }
      r := Some((Address(input[pos..pos + 4]), pos + 4));
    case 28 =>
      if pos + 16 > |input| {
        return None;
      }
      r := Some((Address(input[pos..pos + 16]), pos + 16));
    case 5 =>
      r := UnpackHost(input, pos);
    case 12 =>
      r := UnpackHost(input, pos);
    case 16 =>
      if pos + rdlength > |input| || pos >= |input| {
        return None;
      }
      var txtlength := input[pos];
      if pos + 1 + txtlength > |input| {
        return None;
      }
      r := Some((TextData(Text(input[pos + 1..pos + 1 + txtlength])), pos + rdlength));
    case 33 =>
      if rdlength < 6 || pos + rdlength > |input| {
        return None;
      }
      var name := UnpackName(input, pos + 6);
      if name.BadName? || !IsValidName(name.name) {
        return None;
      }
      r := Some((Service(Get16(input, pos), Get16(input, pos + 2), Get16(input, pos + 4), name.name), name.pos));
    case _ =>
      r := Some((NoData, pos));
  }

  method UnpackHost(input: seq<int>, pos: nat) returns (r: Option<(Data, nat)>)
    requires IsOctets(input) && |input| < 0x1_0000
    ensures r == ReadHost(input, pos)
    ensures r.Some? ==> pos < r.value.1 <= |input|
  {
    hide LabelsAt, EndAt, Dotted;
    var name := UnpackName(input, pos);
    if name.BadName? || !IsValidName(name.name) {
      return None;
    }
    r := Some((Host(name.name), name.pos));
  }

  method UnpackResourceRecord(input: seq<int>, pos: nat) returns (r: Option<(Record, nat)>)
    requires IsOctets(input) && |input| < 0x1_0000
    ensures r == ReadRecord(input, pos)
    ensures r.Some? ==> pos < r.value.1 <= |input|
  {
    hide ReadQuestion, ReadData;
    var q := UnpackQuestion(input, pos);
    if q.None? || q.value.1 + 6 > |input| {
      return None;
    }
    var at := q.value.1;
    var ttl := input[at] * 0x100_0000 + input[at + 1] * 0x1_0000 + input[at + 2] * 0x100 + input[at + 3];
    at := at + 4;
    var rdlength := input[at] * 0x100 + input[at + 1];
    at := at + 2;
    var data := UnpackData(input, at, q.value.0.qtype, rdlength);
    if data.None? {
      return None;
    }
    r := Some((Record(q.value.0, ttl, data.value.0), data.value.1));
  }

  method UnpackQuestions(input: seq<int>, pos: nat, n: nat) returns (r: Taken<Question>)
    requires IsOctets(input) && |input| < 0x1_0000
    ensures r == ReadQuestions(input, pos, n)
  {
    hide ReadQuestion;
    r := Taken([], pos, true);
    for i := 0 to n
      invariant r.all
      invariant ReadQuestions(input, pos, n) == Put(r.items, ReadQuestions(input, r.pos, n - i))
    {
      var q := UnpackQuestion(input, r.pos);
      if q.None? {
        return r.(all := false);
      }
      r := Taken(r.items + [q.value.0], q.value.1, true);
    }
  }

  /** Items already read before the rest of a reading. */
  function Put<T>(items: seq<T>, rest: Taken<T>): Taken<T> {
    rest.(items := items + rest.items)
  }

  method UnpackRecords(input: seq<int>, pos: nat, n: nat) returns (r: Taken<Record>)
    requires IsOctets(input) && |input| < 0x1_0000
    ensures r == ReadRecords(input, pos, n)
  {
    hide ReadRecord;
    r := Taken([], pos, true);
    for i := 0 to n
      invariant r.all
      invariant ReadRecords(input, pos, n) == Put(r.items, ReadRecords(input, r.pos, n - i))
    {
      var record := UnpackResourceRecord(input, r.pos);
      if record.None? {
        return r.(all := false);
      }
      r := Taken(r.items + [record.value.0], record.value.1, true);
    }
  }

  /** Fill; no packet is its exception. Authorities and additional records that fail are swallowed. */
  method Fill(input: seq<int>) returns (p: Option<Packet>)
    requires IsOctets(input) && |input| < 0x1_0000
    ensures p == Filled(input)
  {
    hide ReadQuestions, ReadRecords;
    if |input| < HEADER_LENGTH {
      return None;
    }
    var id, flags := Get16(input, 0), Get16(input, 2);
    var qdcount, ancount, nscount, arcount := Get16(input, 4), Get16(input, 6), Get16(input, 8), Get16(input, 10);
    var questions := UnpackQuestions(input, HEADER_LENGTH, qdcount);
    if !questions.all {
      return None;
    }
    var answers := UnpackRecords(input, questions.pos, ancount);
    if !answers.all {
      return None;
    }
    var authorities := UnpackRecords(input, answers.pos, nscount);
    var additional := Taken([], authorities.pos, false);
    if authorities.all {
      additional := UnpackRecords(input, authorities.pos, arcount);
    }
    p := Some(Packet(id, flags, questions.items, answers.items, authorities.items, additional.items));
  }

  // ---------- round trip ----------

  ghost predicate GoodName(name: string) {
    ShortLabels(Labels(name)) && IsDotted(name) && IsValidName(name)
  }

  ghost predicate GoodQuestion(q: Question) {
    GoodName(q.name) && Is16(q.qtype) && Is16(q.qclass)
  }

  ghost predicate GoodRecord(r: Record) {
    Typed(r) && GoodQuestion(r.question) && 0 <= r.ttl < 0x1_0000_0000 && (r.data.Host? ==> GoodName(r.data.host))
  }

  ghost predicate GoodPacket(p: Packet) {
    && Is16(p.id) && Is16(p.flags)
    && |p.questions| < 0x1_0000 && |p.answers| < 0x1_0000 && |p.authorities| < 0x1_0000 && |p.additional| < 0x1_0000
    && (forall i :: 0 <= i < |p.questions| ==> GoodQuestion(p.questions[i]))
    && AllGood(p.answers) && AllGood(p.authorities) && AllGood(p.additional)
  }

  ghost predicate AllGood(rs: seq<Record>)
    ensures AllGood(rs) ==> AllPack(rs)
  {
    forall i :: 0 <= i < |rs| ==> GoodRecord(rs[i])
  }

  lemma NameRead(input: seq<int>, pos: nat, name: string)
    requires IsOctets(input) && GoodName(name) && Holds(input, pos, EncodeName(name))
    ensures ReadName(input, pos) == Some((name, pos + |EncodeName(name)|))
  {
    hide LabelsAt, EndAt, EncodeName, Dotted, Labels, ShortLabels, IsDotted, IsValidName, Holds, IsOctets;
    NameReadBack(input, pos, name);
  }

  lemma QuestionRead(input: seq<int>, pos: nat, q: Question)
    requires IsOctets(input) && GoodQuestion(q) && Holds(input, pos, EncodeQuestion(q))
    ensures ReadQuestion(input, pos) == Some((q, pos + |EncodeQuestion(q)|))
  {
    hide EncodeName, ReadName, U16, Get16, Holds;
    var at := pos + |EncodeName(q.name)|;
    HoldsParts(input, pos, EncodeName(q.name), U16(q.qtype) + U16(q.qclass));
    HoldsParts(input, at, U16(q.qtype), U16(q.qclass));
    NameRead(input, pos, q.name);
    Read16(input, at, q.qtype);
    Read16(input, at + 2, q.qclass);
  }

  lemma DataRead(input: seq<int>, pos: nat, r: Record)
    requires IsOctets(input) && GoodRecord(r) && Holds(input, pos, EncodeData(r))
    ensures ReadData(input, pos, r.question.qtype, |EncodeData(r)|) == Some((r.data, pos + |EncodeData(r)|))
  {
    hide EncodeName, ReadName;
    if r.data.Host? {
      NameRead(input, pos, r.data.host);
    }
  }

  lemma DataShort(r: Record, input: seq<int>, pos: nat)
    requires Packs(r) && Holds(input, pos, EncodeData(r)) && |input| < 0x1_0000
    ensures Is16(|EncodeData(r)|)
  {
  }

  lemma RecordRead(input: seq<int>, pos: nat, r: Record)
    requires IsOctets(input) && |input| < 0x1_0000 && GoodRecord(r) && Holds(input, pos, EncodeRecord(r))
    ensures ReadRecord(input, pos) == Some((r, pos + |EncodeRecord(r)|))
  {
    hide EncodeQuestion, EncodeData, ReadQuestion, ReadData, U16, U32, Get16, Get32, Holds, GoodQuestion;
    var q, n := r.question, |EncodeData(r)|;
    var at := pos + |EncodeQuestion(q)|;
    HoldsParts(input, pos, EncodeQuestion(q), U32(r.ttl) + (U16(n) + EncodeData(r)));
    HoldsParts(input, at, U32(r.ttl), U16(n) + EncodeData(r));
    HoldsParts(input, at + 4, U16(n), EncodeData(r));
    QuestionRead(input, pos, q);
    Read32(input, at, r.ttl);
    DataShort(r, input, at + 6);
    Read16(input, at + 4, n);
    DataRead(input, at + 6, r);
  }

  /** Data of the other types is not what was there, or ends behind what was written. */
  lemma UnreadData(input: seq<int>, pos: nat, r: Record)
    requires IsOctets(input) && Packs(r) && !Typed(r)
    ensures forall rdlength: nat, data: Data, end: nat ::
      ReadData(input, pos, r.question.qtype, rdlength) == Some((data, end)) ==> data != r.data || pos + |EncodeTail(r)| <= end
    ensures (r.data.Host? && r.question.qtype == NS) || (r.data.Zone? && r.question.qtype == SOA) || EncodeTail(r) == []
    ensures forall rdlength: nat :: r.question.qtype in {NS, SOA} ==>
      ReadData(input, pos, r.question.qtype, rdlength) == Some((NoData, pos))
  {
    hide LabelsAt, EndAt, EncodeName, U16;
  }

  /** Of all records that can be packed, exactly those of type A, AAAA, CNAME and PTR are read back: the data of others
      is not consumed, or its length was never written. */
  lemma RecordReadExactly(input: seq<int>, pos: nat, r: Record)
    requires Packs(r) && IsOctets(input) && |input| < 0x1_0000 && Holds(input, pos, EncodeRecord(r))
    requires GoodQuestion(r.question) && 0 <= r.ttl < 0x1_0000_0000 && (r.data.Host? ==> GoodName(r.data.host))
    ensures ReadRecord(input, pos) == Some((r, pos + |EncodeRecord(r)|)) <==> Typed(r)
  {
    if Typed(r) {
      RecordRead(input, pos, r);
    } else {
      NotReadBack(input, pos, r);
    }
  }

  lemma NotReadBack(input: seq<int>, pos: nat, r: Record)
    requires Packs(r) && !Typed(r) && IsOctets(input) && Holds(input, pos, EncodeRecord(r)) && GoodQuestion(r.question)
    ensures ReadRecord(input, pos) != Some((r, pos + |EncodeRecord(r)|))
  {
    hide EncodeQuestion, EncodeTail, ReadQuestion, ReadData, Holds, GoodQuestion, GoodName, Get16, Get32, U32, Packs, Typed;
    var q := r.question;
    HoldsParts(input, pos, EncodeQuestion(q), U32(r.ttl) + EncodeTail(r));
    QuestionRead(input, pos, q);
    UnreadData(input, pos + |EncodeQuestion(q)| + 6, r);
  }

  // ---------- the layout of records ----------

  /** Data that is cut short is refused, and so is a service too short for its numbers. */
  lemma DataCutShort(input: seq<int>, pos: nat, qtype: int, rdlength: nat)
    requires IsOctets(input) && pos <= |input|
    ensures qtype == 1 && |input| - pos < 4 ==> ReadData(input, pos, qtype, rdlength).None?
    ensures qtype == 28 && |input| - pos < 16 ==> ReadData(input, pos, qtype, rdlength).None?
    ensures qtype in {16, 33} && |input| - pos < rdlength ==> ReadData(input, pos, qtype, rdlength).None?
    ensures qtype == 16 && (pos == |input| || |input| - pos < 1 + input[pos]) ==> ReadData(input, pos, qtype, rdlength).None?
    ensures qtype == 33 && rdlength < 6 ==> ReadData(input, pos, qtype, rdlength).None?
  {
    hide ReadName, ReadHost;
  }

  /** Every record is its question part and the time to live, and except for types that are not written with data, the
      length of what follows. */
  lemma RecordLayout(input: seq<int>, pos: nat, r: Record)
    requires Packs(r) && IsOctets(input) && |input| < 0x1_0000 && Holds(input, pos, EncodeRecord(r))
    requires GoodQuestion(r.question) && 0 <= r.ttl < 0x1_0000_0000
    ensures var at, end := pos + |EncodeQuestion(r.question)|, pos + |EncodeRecord(r)|;
      && ReadQuestion(input, pos) == Some((r.question, at)) && at + 4 <= end <= |input| && Get32(input, at) == r.ttl
      && if r.question.qtype !in {1, 2, 5, 6, 12, 28} then end == at + 4
         else at + 6 <= end && Get16(input, at + 4) == end - (at + 6) && Holds(input, at + 6, EncodeData(r))
  {
    hide EncodeQuestion, EncodeData, ReadQuestion, U16, U32, Get16, Get32, Holds, GoodQuestion, Packs;
    var q, n := r.question, |EncodeData(r)|;
    var at := pos + |EncodeQuestion(q)|;
    HoldsParts(input, pos, EncodeQuestion(q), U32(r.ttl) + EncodeTail(r));
    HoldsParts(input, at, U32(r.ttl), EncodeTail(r));
    QuestionRead(input, pos, q);
    Read32(input, at, r.ttl);
    if !Dataless(q.qtype) {
      HoldsParts(input, at + 4, U16(n), EncodeData(r));
      DataShort(r, input, at + 6);
      Read16(input, at + 4, n);
    }
    HoldsWithin(input, pos, EncodeRecord(r));
  }

  lemma HoldsWithin(input: seq<int>, pos: nat, b: seq<int>)
    requires Holds(input, pos, b)
    ensures pos + |b| <= |input|
  {
  }

  /** A name stands here with these labels, and ends before end. */
  ghost predicate NameAt(input: seq<int>, at: nat, name: string, end: nat)
    requires IsOctets(input)
  {
    at < |input| && LabelsAt(input, at, |input|) == Some(Labels(name)) && EndAt(input, at) == end
  }

  lemma NameIsAt(input: seq<int>, at: nat, name: string)
    requires IsOctets(input) && ShortLabels(Labels(name)) && Holds(input, at, EncodeName(name))
    ensures NameAt(input, at, name, at + |EncodeName(name)|)
  {
    hide LabelsAt, EndAt, EncodeName, Labels, Dotted, IsDotted, Holds, ShortLabels;
    NameReadBack(input, at, name);
  }

  /** A name server is given by its name. */
  lemma NameServerRead(input: seq<int>, pos: nat, r: Record)
    requires Packs(r) && r.question.qtype == NS && IsOctets(input) && |input| < 0x1_0000 && Holds(input, pos, EncodeRecord(r))
    requires GoodQuestion(r.question) && 0 <= r.ttl < 0x1_0000_0000 && ShortLabels(Labels(r.data.host))
    ensures NameAt(input, pos + |EncodeQuestion(r.question)| + 6, r.data.host, pos + |EncodeRecord(r)|)
  {
    hide EncodeQuestion, EncodeName, Labels, ReadQuestion, Get16, Get32, U16, U32, Holds, IsOctets, GoodQuestion, ShortLabels, NameAt;
    RecordLayout(input, pos, r);
    NameIsAt(input, pos + |EncodeQuestion(r.question)| + 6, r.data.host);
  }

  /** The five numbers of a start of authority: serial, refresh, retry, expire and minimum. */
  ghost predicate TimesAt(input: seq<int>, at: nat, serial: int, refresh: int)
    requires IsOctets(input)
  {
    && at + 20 <= |input|
    && Get32(input, at) == serial
    && Get32(input, at + 4) == refresh
    && Get32(input, at + 8) == refresh
    && Get32(input, at + 12) == 604800
    && Get32(input, at + 16) == 0
  }

  /** The data of a start of authority as RFC 1035, section 3.3.13, lays it out: the name of the server, the mailbox of
      the administrator as a name, then the numbers, 32 bits each. */
  lemma ZoneRead(input: seq<int>, pos: nat, r: Record) returns (admin: nat)
    requires Packs(r) && r.question.qtype == SOA && IsOctets(input) && |input| < 0x1_0000 && Holds(input, pos, EncodeRecord(r))
    requires GoodQuestion(r.question) && 0 <= r.ttl < 0x1_0000_0000
    requires ShortLabels(Labels(r.data.server)) && ShortLabels(Labels(AtsAsDots(r.data.admin)))
    requires 0 <= r.data.serial < 0x1_0000_0000 && 0 <= r.data.refresh < 0x1_0000_0000
    ensures var times := pos + |EncodeRecord(r)| - 20;
      && NameAt(input, pos + |EncodeQuestion(r.question)| + 6, r.data.server, admin)
      && times >= 0 && NameAt(input, admin, AtsAsDots(r.data.admin), times)
      && TimesAt(input, times, r.data.serial, r.data.refresh)
  {
    hide EncodeQuestion, EncodeName, Labels, AtsAsDots, ReadQuestion, Get16, Get32, U16, U32, EncodeTimes;
    hide Holds, IsOctets, GoodQuestion, ShortLabels, NameAt, TimesAt;
    RecordLayout(input, pos, r);
    var server, d := pos + |EncodeQuestion(r.question)| + 6, r.data;
    var n, a := EncodeName(d.server), EncodeName(AtsAsDots(d.admin));
    HoldsParts(input, server, n, a + EncodeTimes(d.serial, d.refresh));
    HoldsParts(input, server + |n|, a, EncodeTimes(d.serial, d.refresh));
    NameIsAt(input, server, d.server);
    admin := server + |n|;
    NameIsAt(input, admin, AtsAsDots(d.admin));
    TimesRead(input, admin + |a|, d.serial, d.refresh);
  }

  lemma TimesRead(input: seq<int>, at: nat, serial: int, refresh: int)
    requires IsOctets(input) && Holds(input, at, EncodeTimes(serial, refresh))
    requires 0 <= serial < 0x1_0000_0000 && 0 <= refresh < 0x1_0000_0000
    ensures TimesAt(input, at, serial, refresh)
  {
    hide U32, Get32, Holds;
    HoldsParts(input, at, U32(serial), U32(refresh) + (U32(refresh) + (U32(EXPIRE) + U32(0))));
    HoldsParts(input, at + 4, U32(refresh), U32(refresh) + (U32(EXPIRE) + U32(0)));
    HoldsParts(input, at + 8, U32(refresh), U32(EXPIRE) + U32(0));
    HoldsParts(input, at + 12, U32(EXPIRE), U32(0));
    Read32(input, at, serial);
    Read32(input, at + 4, refresh);
    Read32(input, at + 8, refresh);
    Read32(input, at + 12, EXPIRE);
    Read32(input, at + 16, 0);
  }

  /** The local part of the mailbox comes before its domain. */
  lemma MailboxAsName(local: string, domain: string)
    requires '@' !in local && '@' !in domain
    ensures Labels(AtsAsDots(local + "@" + domain)) == Labels(local) + Labels(domain)
  {
    assert AtsAsDots(local + "@" + domain) == local + "." + domain;
    SplitConcat(local, '.', domain);
    NonEmptyJoins(Split(local, '.'), Split(domain, '.'));
  }

  /** Of a text the first string is read, by its length octet; whatever follows it in the data is skipped. */
  lemma TextRead(input: seq<int>, pos: nat, q: Question, ttl: int, text: string, more: seq<int>)
    requires IsOctets(input) && |input| < 0x1_0000 && GoodQuestion(q) && q.qtype == TXT && 0 <= ttl < 0x1_0000_0000
    requires IsByteString(text) && |text| < 256 && IsOctets(more)
    requires Holds(input, pos, EncodeQuestion(q) + (U32(ttl) + (U16(1 + |text| + |more|) + (([|text|] + Bytes(text)) + more))))
    ensures ReadRecord(input, pos) == Some((Record(q, ttl, TextData(text)), pos + |EncodeQuestion(q)| + 7 + |text| + |more|))
  {
    hide EncodeQuestion, ReadQuestion, U16, U32, Get16, Get32, GoodQuestion, Holds, IsOctets, IsByteString, ReadAddress, ReadHost;
    var at, n, string_ := pos + |EncodeQuestion(q)|, 1 + |text| + |more|, [|text|] + Bytes(text);
    HoldsParts(input, pos, EncodeQuestion(q), U32(ttl) + (U16(n) + (string_ + more)));
    HoldsParts(input, at, U32(ttl), U16(n) + (string_ + more));
    HoldsParts(input, at + 4, U16(n), string_ + more);
    HoldsParts(input, at + 6, string_, more);
    HoldsWithin(input, at + 6, string_ + more);
    QuestionRead(input, pos, q);
    Read32(input, at, ttl);
    Read16(input, at + 4, n);
    StringRead(input, at + 6, text);
  }

  lemma StringRead(input: seq<int>, at: nat, text: string)
    requires IsOctets(input) && IsByteString(text) && |text| < 256 && Holds(input, at, [|text|] + Bytes(text))
    ensures at + 1 + |text| <= |input| && input[at] == |text| && Text(input[at + 1..at + 1 + |text|]) == text
  {
    var b := [|text|] + Bytes(text);
    assert input[at] == input[at..at + |b|][0];
    assert input[at + 1..at + 1 + |text|] == input[at..at + |b|][1..] == Bytes(text);
    TextOfBytes(text);
  }

  /** A service as RFC 2782 lays it out: priority, weight and port, 16 bits each, then the name of the host. */
  lemma ServiceRead(input: seq<int>, pos: nat, q: Question, ttl: int, priority: int, weight: int, port: int, host: string)
    requires IsOctets(input) && |input| < 0x1_0000 && GoodQuestion(q) && q.qtype == SRV && 0 <= ttl < 0x1_0000_0000
    requires Is16(priority) && Is16(weight) && Is16(port) && GoodName(host)
    requires Holds(input, pos, EncodeQuestion(q) + (U32(ttl) + (U16(6 + |EncodeName(host)|) +
      (U16(priority) + (U16(weight) + (U16(port) + EncodeName(host)))))))
    ensures ReadRecord(input, pos) ==
      Some((Record(q, ttl, Service(priority, weight, port, host)), pos + |EncodeQuestion(q)| + 12 + |EncodeName(host)|))
  {
    hide EncodeQuestion, EncodeName, ReadQuestion, ReadName, U16, U32, Get16, Get32, GoodQuestion, Holds;
    var at, h := pos + |EncodeQuestion(q)|, EncodeName(host);
    HoldsParts(input, pos, EncodeQuestion(q), U32(ttl) + (U16(6 + |h|) + (U16(priority) + (U16(weight) + (U16(port) + h)))));
    HoldsParts(input, at, U32(ttl), U16(6 + |h|) + (U16(priority) + (U16(weight) + (U16(port) + h))));
    HoldsParts(input, at + 4, U16(6 + |h|), U16(priority) + (U16(weight) + (U16(port) + h)));
    HoldsParts(input, at + 6, U16(priority), U16(weight) + (U16(port) + h));
    HoldsParts(input, at + 8, U16(weight), U16(port) + h);
    HoldsParts(input, at + 10, U16(port), h);
    HoldsWithin(input, at + 12, h);
    QuestionRead(input, pos, q);
    Read32(input, at, ttl);
    Read16(input, at + 4, 6 + |h|);
    Read16(input, at + 6, priority);
    Read16(input, at + 8, weight);
    Read16(input, at + 10, port);
    NameRead(input, at + 12, host);
  }

  lemma {:induction false} QuestionsRead(input: seq<int>, pos: nat, qs: seq<Question>)
    requires IsOctets(input) && Holds(input, pos, EncodeQuestions(qs))
    requires forall i :: 0 <= i < |qs| ==> GoodQuestion(qs[i])
    ensures ReadQuestions(input, pos, |qs|) == Taken(qs, pos + |EncodeQuestions(qs)|, true)
    decreases |qs|
  {
    hide EncodeQuestion, ReadQuestion, GoodQuestion, Holds;
    if qs != [] {
      HoldsParts(input, pos, EncodeQuestion(qs[0]), EncodeQuestions(qs[1..]));
      QuestionRead(input, pos, qs[0]);
      QuestionsRead(input, pos + |EncodeQuestion(qs[0])|, qs[1..]);
      assert qs == [qs[0]] + qs[1..];
    }
  }

  lemma {:induction false} RecordsRead(input: seq<int>, pos: nat, rs: seq<Record>)
    requires IsOctets(input) && |input| < 0x1_0000 && AllGood(rs) && Holds(input, pos, EncodeRecords(rs))
    ensures ReadRecords(input, pos, |rs|) == Taken(rs, pos + |EncodeRecords(rs)|, true)
    decreases |rs|
  {
    hide EncodeRecord, ReadRecord, GoodRecord, Holds, EncodeRecords;
    if rs != [] {
      assert AllGood(rs[1..]);
      RecordsUnfold(rs);
      HoldsParts(input, pos, EncodeRecord(rs[0]), EncodeRecords(rs[1..]));
      RecordRead(input, pos, rs[0]);
      RecordsRead(input, pos + |EncodeRecord(rs[0])|, rs[1..]);
      assert rs == [rs[0]] + rs[1..];
    } else {
      assert |EncodeRecords(rs)| == 0 by {
        NoRecords();
      }
    }
  }

  lemma NoRecords()
    ensures EncodeRecords([]) == []
  {
  }

  lemma HeaderRead(input: seq<int>, p: Packet)
    requires IsOctets(input) && GoodPacket(p) && Holds(input, 0, EncodeHeader(p))
    ensures |input| >= HEADER_LENGTH && Get16(input, 0) == p.id && Get16(input, 2) == p.flags && Get16(input, 4) == |p.questions|
    ensures Get16(input, 6) == |p.answers| && Get16(input, 8) == |p.authorities| && Get16(input, 10) == |p.additional|
  {
    hide U16, Get16, Holds;
    var a, b, c, d, e, f := U16(p.id), U16(p.flags), U16(|p.questions|), U16(|p.answers|), U16(|p.authorities|), U16(|p.additional|);
    HoldsParts(input, 0, a + b + c + d + e, f);
    HoldsParts(input, 0, a + b + c + d, e);
    HoldsParts(input, 0, a + b + c, d);
    HoldsParts(input, 0, a + b, c);
    HoldsParts(input, 0, a, b);
    Read16(input, 0, p.id);
    Read16(input, 2, p.flags);
    Read16(input, 4, |p.questions|);
    Read16(input, 6, |p.answers|);
    Read16(input, 8, |p.authorities|);
    Read16(input, 10, |p.additional|);
  }

  /** Whatever Pack writes, Fill reads back: the id, the flags and all questions and records, in order. */
  lemma RoundTrip(p: Packet, input: seq<int>)
    requires GoodPacket(p) && Packable(p) && IsOctets(input) && |input| < 0x1_0000 && Holds(input, 0, EncodePacket(p))
    ensures Filled(input) == Some(p)
  {
    hide EncodeHeader, EncodeQuestions, EncodeRecords, ReadQuestions, ReadRecords, Holds, Get16, AllGood, AllPack, GoodQuestion;
    var q, a, n, d := EncodeQuestions(p.questions), EncodeRecords(p.answers), EncodeRecords(p.authorities), EncodeRecords(p.additional);
    HoldsParts(input, 0, EncodeHeader(p), q + (a + (n + d)));
    HoldsParts(input, HEADER_LENGTH, q, a + (n + d));
    HoldsParts(input, HEADER_LENGTH + |q|, a, n + d);
    HoldsParts(input, HEADER_LENGTH + |q| + |a|, n, d);
    HeaderRead(input, p);
    QuestionsRead(input, HEADER_LENGTH, p.questions);
    RecordsRead(input, HEADER_LENGTH + |q|, p.answers);
    RecordsRead(input, HEADER_LENGTH + |q| + |a|, p.authorities);
    RecordsRead(input, HEADER_LENGTH + |q| + |a| + |n|, p.additional);
  }

  lemma PacketOctets(p: Packet)
    requires Packable(p)
    ensures IsOctets(EncodePacket(p))
  {
    hide EncodeHeader, EncodeQuestions, EncodeRecords, AllPack;
    var q, a, n, d := EncodeQuestions(p.questions), EncodeRecords(p.answers), EncodeRecords(p.authorities), EncodeRecords(p.additional);
    assert IsOctets(n + d);
    assert IsOctets(a + (n + d));
    assert IsOctets(q + (a + (n + d)));
  }

  /** Fill of the octets that Pack wrote and counted restores the packet. */
  lemma PackedIsFilled(p: Packet, before: seq<int>, after: seq<int>)
    requires GoodPacket(p) && Packable(p) && |after| < 0x1_0000 && Wrote(before, after, 0, EncodePacket(p))
    ensures IsOctets(after[..|EncodePacket(p)|]) && Filled(after[..|EncodePacket(p)|]) == Some(p)
  {
    hide EncodePacket, Filled, GoodPacket, Packable;
    var b := EncodePacket(p);
    var input := after[..|b|];
    assert input == after[0..0 + |b|] == b;
    PacketOctets(p);
    assert input[0..0 + |b|] == b;
    RoundTrip(p, input);
  }

  // ---------- packets cut short ----------

  lemma CutIsGood(rs: seq<Record>, k: nat)
    requires AllGood(rs) && k <= |rs|
    ensures AllGood(rs[..k])
  {
  }

  lemma NothingAtEnd(input: seq<int>, pos: nat)
    requires IsOctets(input) && pos >= |input|
    ensures ReadRecord(input, pos).None?
  {
  }

  /** Records are read until one is not there. */
  lemma {:induction false} RecordsUntil(input: seq<int>, pos: nat, rs: seq<Record>, n: nat)
    requires IsOctets(input) && |input| < 0x1_0000 && AllGood(rs) && Holds(input, pos, EncodeRecords(rs))
    requires n > |rs| && ReadRecord(input, pos + |EncodeRecords(rs)|).None?
    ensures ReadRecords(input, pos, n) == Taken(rs, pos + |EncodeRecords(rs)|, false)
    decreases |rs|
  {
    hide EncodeRecord, ReadRecord, GoodRecord, Holds, EncodeRecords;
    if rs != [] {
      assert AllGood(rs[1..]);
      RecordsUnfold(rs);
      HoldsParts(input, pos, EncodeRecord(rs[0]), EncodeRecords(rs[1..]));
      RecordRead(input, pos, rs[0]);
      RecordsUntil(input, pos + |EncodeRecord(rs[0])|, rs[1..], n - 1);
      assert rs == [rs[0]] + rs[1..];
    } else {
      assert |EncodeRecords(rs)| == 0 by {
        NoRecords();
      }
    }
  }

  /** What Fill makes of sections that are not all there. */
  lemma FilledPartly(input: seq<int>, at: nat, behind: nat)
    requires IsOctets(input) && |input| >= HEADER_LENGTH
    requires var qs := ReadQuestions(input, HEADER_LENGTH, Get16(input, 4)); qs.all && qs.pos == at
    ensures var qs := ReadQuestions(input, HEADER_LENGTH, Get16(input, 4));
      var ans, auth := ReadRecords(input, at, Get16(input, 6)), ReadRecords(input, behind, Get16(input, 8));
      && (!ans.all ==> Filled(input).None?)
      && (ans.all && ans.pos == behind && !auth.all ==>
           Filled(input) == Some(Packet(Get16(input, 0), Get16(input, 2), qs.items, ans.items, auth.items, [])))
  {
    hide ReadQuestions, ReadRecords, Get16;
  }

  /** Header and questions are read, whatever follows. */
  lemma StartRead(p: Packet, input: seq<int>, rest: seq<int>) returns (at: nat)
    requires GoodPacket(p) && IsOctets(input) && Holds(input, 0, EncodeHeader(p) + (EncodeQuestions(p.questions) + rest))
    ensures at == HEADER_LENGTH + |EncodeQuestions(p.questions)| && Holds(input, at, rest) && |input| >= HEADER_LENGTH
    ensures Get16(input, 0) == p.id && Get16(input, 2) == p.flags && Get16(input, 6) == |p.answers| && Get16(input, 8) == |p.authorities|
    ensures ReadQuestions(input, HEADER_LENGTH, Get16(input, 4)) == Taken(p.questions, at, true)
  {
    hide EncodeHeader, EncodeQuestions, ReadQuestions, Get16, AllGood, GoodQuestion, Holds, IsOctets;
    var q := EncodeQuestions(p.questions);
    HoldsParts(input, 0, EncodeHeader(p), q + rest);
    HoldsParts(input, HEADER_LENGTH, q, rest);
    HeaderRead(input, p);
    QuestionsRead(input, HEADER_LENGTH, p.questions);
    at := HEADER_LENGTH + |q|;
  }

  /** The records of a section that ends with the input. */
  lemma SectionCut(input: seq<int>, at: nat, rs: seq<Record>, k: nat) returns (kept: seq<Record>)
    requires IsOctets(input) && |input| < 0x1_0000 && AllGood(rs) && k < |rs| && AllPack(rs[..k])
    requires Holds(input, at, EncodeRecords(rs[..k])) && |input| == at + |EncodeRecords(rs[..k])|
    ensures kept == rs[..k] && ReadRecords(input, at, |rs|) == Taken(kept, |input|, false)
  {
    hide EncodeRecords, ReadRecords, ReadRecord, AllGood, AllPack, Holds, IsOctets;
    kept := rs[..k];
    CutIsGood(rs, k);
    NothingAtEnd(input, |input|);
    RecordsUntil(input, at, kept, |rs|);
  }

  /** A packet that ends behind some of its authorities is filled with these and has no additional records. */
  lemma CutInAuthorities(p: Packet, k: nat, input: seq<int>)
    requires GoodPacket(p) && Packable(p) && k < |p.authorities| && IsOctets(input) && |input| < 0x1_0000
    requires AllPack(p.authorities[..k])
    requires Holds(input, 0, EncodeHeader(p) + (EncodeQuestions(p.questions) + (EncodeRecords(p.answers) + EncodeRecords(p.authorities[..k]))))
    requires |input| == HEADER_LENGTH + |EncodeQuestions(p.questions)| + |EncodeRecords(p.answers)| + |EncodeRecords(p.authorities[..k])|
    ensures Filled(input) == Some(p.(authorities := p.authorities[..k], additional := []))
  {
    hide *;
    SectionsGood(p);
    var a, n := EncodeRecords(p.answers), EncodeRecords(p.authorities[..k]);
    var at := StartRead(p, input, a + n);
    HoldsParts(input, at, a, n);
    RecordsRead(input, at, p.answers);
    var kept := SectionCut(input, at + |a|, p.authorities, k);
    FilledPartly(input, at, at + |a|);
  }

  lemma SectionsGood(p: Packet)
    requires GoodPacket(p)
    ensures AllGood(p.answers) && AllGood(p.authorities) && AllGood(p.additional)
  {
  }

  /** One that ends behind some of its answers is not filled at all. */
  lemma CutInAnswers(p: Packet, k: nat, input: seq<int>)
    requires GoodPacket(p) && Packable(p) && k < |p.answers| && IsOctets(input) && |input| < 0x1_0000
    requires AllPack(p.answers[..k])
    requires Holds(input, 0, EncodeHeader(p) + (EncodeQuestions(p.questions) + EncodeRecords(p.answers[..k])))
    requires |input| == HEADER_LENGTH + |EncodeQuestions(p.questions)| + |EncodeRecords(p.answers[..k])|
    ensures Filled(input).None?
  {
    hide *;
    SectionsGood(p);
    var at := StartRead(p, input, EncodeRecords(p.answers[..k]));
    var kept := SectionCut(input, at, p.answers, k);
    FilledPartly(input, at, |input|);
  }

  // ---------- room ----------

  /** A question is packed if and only if there is an octet to spare behind it. */
  lemma QuestionRoomExactly(q: Question, pos: nat, size: nat)
    requires GoodQuestion(q)
    ensures QuestionFits(q, pos, size) <==> pos + |EncodeQuestion(q)| < size
  {
    hide EncodeName, GoodName;
    DottedRoom(q.name);
  }

  /** A dotted name takes two octets more than it has characters, and the root takes one. */
  lemma DottedRoom(name: string)
    requires GoodName(name)
    ensures |EncodeName(name)| == if name == "" then 1 else |name| + 2
  {
    hide Split, NonEmpty, EncodeLabels;
    if name == "" {
      NoLabels();
    } else {
      DroppedPieces(Split(name, '.'));
      RoomOfLabels(Labels(name));
      RoomOfSplit(name, '.');
    }
  }

  lemma NoLabels()
    ensures EncodeLabels(Labels("")) == []
  {
    assert Split("", '.') == [""];
    assert [""][1..] == [];
    assert NonEmpty([""]) == NonEmpty([]) == [];
  }

  /** A record with an address or a name is packed if and only if it fits; one without data, with the root for a name,
      or of a zone needs an octet to spare. */
  lemma RecordRoomExactly(r: Record, pos: nat, size: nat)
    requires Packs(r) && GoodName(r.question.name) && (r.data.Host? ==> GoodName(r.data.host))
    requires r.data.Zone? ==> GoodName(r.data.server) && GoodName(AtsAsDots(r.data.admin))
    ensures RecordFits(r, pos, size) <==>
      if r.question.qtype in {1, 28} || (r.question.qtype in {2, 5, 12} && r.data.host != "") then pos + |EncodeRecord(r)| <= size
      else pos + |EncodeRecord(r)| < size
  {
    hide EncodeName, GoodName, AtsAsDots;
    DottedRoom(r.question.name);
    if r.data.Host? {
      DottedRoom(r.data.host);
    }
    if r.data.Zone? {
      DottedRoom(r.data.server);
      DottedRoom(AtsAsDots(r.data.admin));
    }
  }

  lemma NameRoom(name: string, pos: nat, size: nat)
    requires GoodName(name) && pos + |EncodeName(name)| + 1 <= size
    ensures pos + |name| + 2 <= size
  {
    DottedNeeds(name);
  }

  lemma {:induction false} QuestionsRoom(qs: seq<Question>, pos: nat, size: nat)
    requires forall i :: 0 <= i < |qs| ==> GoodQuestion(qs[i])
    requires pos + |EncodeQuestions(qs)| + 2 <= size
    ensures QuestionsFit(qs, pos, size)
  {
    hide GoodName, EncodeName;
    if qs != [] {
      assert GoodQuestion(qs[0]);
      NameRoom(qs[0].name, pos, size);
      QuestionsRoom(qs[1..], pos + |EncodeQuestion(qs[0])|, size);
    }
  }

  lemma RecordRoom(r: Record, pos: nat, size: nat)
    requires GoodRecord(r) && pos + |EncodeRecord(r)| + 2 <= size
    ensures RecordFits(r, pos, size)
  {
    hide GoodName, EncodeName;
    NameRoom(r.question.name, pos, size);
    if r.data.Host? {
      NameRoom(r.data.host, pos + |EncodeName(r.question.name)| + 10, size);
    }
  }

  lemma {:induction false} RecordsRoom(rs: seq<Record>, pos: nat, size: nat)
    requires AllGood(rs) && pos + |EncodeRecords(rs)| + 2 <= size
    ensures RecordsFit(rs, pos, size)
    decreases |rs|
  {
    hide GoodRecord, EncodeRecord, RecordFits;
    if rs != [] {
      assert AllGood(rs[1..]);
      RecordsUnfold(rs);
      RecordRoom(rs[0], pos, size);
      RecordsRoom(rs[1..], pos + |EncodeRecord(rs[0])|, size);
    }
  }

  /** Two octets to spare are always enough for Pack. */
  lemma PackSucceeds(p: Packet, size: nat)
    requires GoodPacket(p) && Packable(p) && |EncodePacket(p)| + 2 <= size
    ensures Fits(p, size)
  {
    hide EncodeHeader, EncodeQuestions, EncodeRecords, AllGood, GoodQuestion, QuestionsFit, RecordsFit;
    var q := HEADER_LENGTH + |EncodeQuestions(p.questions)|;
    var a := q + |EncodeRecords(p.answers)|;
    QuestionsRoom(p.questions, HEADER_LENGTH, size);
    RecordsRoom(p.answers, q, size);
    RecordsRoom(p.authorities, a, size);
    RecordsRoom(p.additional, a + |EncodeRecords(p.authorities)|, size);
  }
}
