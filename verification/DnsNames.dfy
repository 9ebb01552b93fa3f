/** Domain names in packets: modules/dns.cpp, PackName and UnpackName, for RFC 1035 sections 3.1 and 4.1.4. */
module DnsNames {
  import opened Wrappers
  import opened Strings
  import opened SepStream
  import opened OctetSeqs

  /** The characters of a source string are bytes. */
  ghost predicate IsByteString(s: string) {
    forall i :: 0 <= i < |s| ==> s[i] as int < 256
  }

  function Bytes(s: string): (b: seq<int>)
    ensures |b| == |s| && IsOctets(b)
    ensures forall i :: 0 <= i < |s| ==> b[i] == s[i] as int % 256
  {
    seq(|s|, (i: int) requires 0 <= i && i < |s| => s[i] as int % 256)
  }

  function Text(b: seq<int>): (s: string)
    requires IsOctets(b)
    ensures |s| == |b| && IsByteString(s)
    ensures forall i :: 0 <= i < |b| ==> s[i] as int == b[i]
  {
    seq(|b|, (i: int) requires 0 <= i && i < |b| => b[i] as char)
  }

  lemma TextOfBytes(s: string)
    requires IsByteString(s)
    ensures Text(Bytes(s)) == s
  {
  }

  // ---------- packing ----------

  /** A length octet, cut to eight bits, and the octets of the label. */
  function EncodeLabel(part: string): (b: seq<int>)
    ensures |b| == |part| + 1 && IsOctets(b)
  {
    [|part| % 256] + Bytes(part)
  }

  function EncodeLabels(labels: seq<string>): (b: seq<int>)
    ensures IsOctets(b)
  {
    if labels == [] then [] else EncodeLabel(labels[0]) + EncodeLabels(labels[1..])
  }

  function Labels(name: string): seq<string> {
    NonEmpty(Split(name, '.'))
  }

  function EncodeName(name: string): (b: seq<int>)
    ensures IsOctets(b) && b != []
  {
    EncodeLabels(Labels(name)) + [0]
  }

  /** Room that a list of pieces needs: each with one octet before it. */
  function Room(pieces: seq<string>): nat {
    if pieces == [] then 0 else 1 + |pieces[0]| + Room(pieces[1..])
  }

  lemma {:induction false} RoomOfNonEmpty(pieces: seq<string>)
    ensures |EncodeLabels(NonEmpty(pieces))| <= Room(pieces)
  {
    if pieces != [] {
      RoomOfNonEmpty(pieces[1..]);
    }
  }

  lemma {:induction false} RoomOfSplit(name: string, sep: char)
    ensures Room(Split(name, sep)) == |name| + 1
    decreases |name|
  {
    var p := Find(name, sep, 0);
    if p.Some? {
      RoomOfSplit(name[p.value + 1..], sep);
    }
  }

  /** The bound that PackName checks is enough. */
  lemma EncodingFits(name: string)
    ensures |EncodeName(name)| <= |name| + 2
  {
    RoomOfNonEmpty(Split(name, '.'));
    RoomOfSplit(name, '.');
  }

  lemma {:induction false} EncodeMonotone(labels: seq<string>, more: seq<string>)
    ensures EncodeLabels(labels + more) == EncodeLabels(labels) + EncodeLabels(more)
  {
    hide EncodeLabel;
    if labels == [] {
      assert [] + more == more;
    } else {
      var all := labels + more;
      assert all[0] == labels[0] && all[1..] == labels[1..] + more;
      EncodeMonotone(labels[1..], more);
    }
  }

  lemma EncodeAppend(labels: seq<string>, part: string)
    ensures EncodeLabels(labels + [part]) == EncodeLabels(labels) + EncodeLabel(part)
  {
    hide EncodeLabel;
    EncodeMonotone(labels, [part]);
    assert [part][1..] == [] && EncodeLabels([]) == [];
  }

  /** The bytes of b are written from position from on, and nothing else is. */
  ghost predicate Wrote(before: seq<int>, after: seq<int>, from: nat, b: seq<int>) {
    && |after| == |before|
    && from + |b| <= |before|
    && after[from..from + |b|] == b
    && (forall i :: 0 <= i < |before| && !(from <= i < from + |b|) ==> after[i] == before[i])
  }

  lemma WroteMore(s0: seq<int>, s1: seq<int>, s2: seq<int>, from: nat, b: seq<int>, c: seq<int>)
    requires Wrote(s0, s1, from, b) && Wrote(s1, s2, from + |b|, c)
    ensures Wrote(s0, s2, from, b + c)
  {
    forall i | 0 <= i < |b + c|
      ensures s2[from + i] == (b + c)[i]
    {
      if i < |b| {
        assert s1[from + i] == s1[from..from + |b|][i];
      } else {
        assert s2[from + i] == s2[from + |b|..from + |b| + |c|][i - |b|];
      }
    }
    assert s2[from..from + |b + c|] == b + c;
  }

  method WriteLabel(output: array<int>, pos: nat, token: string) returns (next: nat)
    requires pos + |token| + 1 <= output.Length
    modifies output
    ensures next == pos + |EncodeLabel(token)| && Wrote(old(output[..]), output[..], pos, EncodeLabel(token))
  {
    output[pos] := |token| % 256;
    var i := 0;
    while i < |token|
      invariant 0 <= i <= |token|
      invariant output[pos] == |token| % 256
      invariant forall k :: 0 <= k < i ==> output[pos + 1 + k] == token[k] as int % 256
      invariant forall k :: 0 <= k < output.Length && !(pos <= k < pos + 1 + |token|) ==> output[k] == old(output[k])
    {
      output[pos + 1 + i] := token[i] as int % 256;
      i := i + 1;
    }
    next := pos + 1 + |token|;
    assert output[..][pos..next] == EncodeLabel(token);
  }

  /** The labels so far are packed, the others are left. */
  ghost predicate Packing(name: string, before: seq<int>, now: seq<int>, pos: nat, at: nat, left: seq<string>) {
    exists done :: (
      && Labels(name) == done + left
      && at == pos + |EncodeLabels(done)|
      && Wrote(before, now, pos, EncodeLabels(done)))
  }

  lemma PackStarts(name: string, s: seq<int>, pos: nat)
    requires pos <= |s|
    ensures Packing(name, s, s, pos, pos, Labels(name))
  {
    NothingWritten(s, pos);
    assert Labels(name) == [] + Labels(name);
  }

  lemma PackStep(name: string, before: seq<int>, now: seq<int>, next: seq<int>, pos: nat, at: nat, left: seq<string>)
    requires Packing(name, before, now, pos, at, left) && left != []
    requires Wrote(now, next, at, EncodeLabel(left[0]))
    ensures Packing(name, before, next, pos, at + |EncodeLabel(left[0])|, left[1..])
  {
    hide Wrote, EncodeLabels, EncodeLabel, Labels;
    var done :| Labels(name) == done + left && at == pos + |EncodeLabels(done)| && Wrote(before, now, pos, EncodeLabels(done));
    WroteMore(before, now, next, pos, EncodeLabels(done), EncodeLabel(left[0]));
    EncodeAppend(done, left[0]);
    assert Labels(name) == (done + [left[0]]) + left[1..];
  }

  lemma PackFits(name: string, before: seq<int>, now: seq<int>, pos: nat, at: nat, left: seq<string>)
    requires Packing(name, before, now, pos, at, left)
    ensures |now| == |before|
    ensures left != [] ==> at + |left[0]| + 1 < pos + |name| + 2
    ensures at < pos + |name| + 2
  {
    hide EncodeLabels, Labels;
    var done :| Labels(name) == done + left && at == pos + |EncodeLabels(done)| && Wrote(before, now, pos, EncodeLabels(done));
    EncodingFits(name);
    EncodeMonotone(done, left);
    if left != [] {
      assert left == [left[0]] + left[1..];
      assert EncodeLabels(left) == EncodeLabel(left[0]) + EncodeLabels(left[1..]) by {
        LabelsUnfold(left);
      }
    }
  }

  lemma LabelsUnfold(labels: seq<string>)
    requires labels != []
    ensures EncodeLabels(labels) == EncodeLabel(labels[0]) + EncodeLabels(labels[1..])
  {
  }

  lemma PackEnds(name: string, before: seq<int>, now: seq<int>, pos: nat, at: nat)
    requires Packing(name, before, now, pos, at, []) && at < |now|
    ensures Wrote(before, now[at := 0], pos, EncodeName(name)) && at + 1 == pos + |EncodeName(name)|
  {
    hide Wrote, EncodeLabels, Labels;
    var done :| Labels(name) == done + [] && at == pos + |EncodeLabels(done)| && Wrote(before, now, pos, EncodeLabels(done));
    assert Labels(name) == done;
    OneWritten(now, now[at := 0], at, 0);
    WroteMore(before, now, now[at := 0], pos, EncodeLabels(done), [0]);
  }

  /** PackName; no position is its exception. */
  method PackName(output: array<int>, pos: nat, name: string) returns (next: Option<nat>)
    modifies output
    ensures next.None? <==> pos + |name| + 2 > output.Length
    ensures next.None? ==> output[..] == old(output[..])
    ensures next.Some? ==> next.value == pos + |EncodeName(name)| && Wrote(old(output[..]), output[..], pos, EncodeName(name))
  {
    if pos + |name| + 2 > output.Length {
      return None;
    }
    hide EncodeLabel, Wrote, Packing, EncodeName, NonEmpty, Split, Pending;
    ghost var before := output[..];
    var sep := new SepStream(name, '.', false);
    ghost var left := sep.Left();
    PackStarts(name, before, pos);
    var at := pos;
    var ok, token := sep.GetToken();
    while ok
      invariant ok <==> left != []
      invariant ok ==> token == left[0] && sep.Left() == left[1..]
      invariant Packing(name, before, output[..], pos, at, left)
      decreases |left|
    {
      ghost var now, place := output[..], at;
      PackFits(name, before, now, pos, at, left);
      at := WriteLabel(output, at, token);
      PackStep(name, before, now, output[..], pos, place, left);
      left := left[1..];
      ok, token := sep.GetToken();
    }
    PackFits(name, before, output[..], pos, at, left);
    PackEnds(name, before, output[..], pos, at);
    output[at] := 0;
    next := Some(at + 1);
  }

  lemma NothingWritten(s: seq<int>, pos: nat)
    requires pos <= |s|
    ensures Wrote(s, s, pos, EncodeLabels([]))
  {
  }

  lemma OneWritten(s: seq<int>, t: seq<int>, at: nat, b: int)
    requires at < |s| && t == s[at := b]
    ensures Wrote(s, t, at, [b])
  {
  }

  // ---------- unpacking ----------

  const COMPRESSED: int := 0xC0

  /** The labels of the name at ptr, when every pointer leads below all that was pointed to before. */
  function LabelsAt(input: seq<int>, ptr: nat, lowest: nat): Option<seq<string>>
    requires ptr < |input| && IsOctets(input)
    decreases lowest, |input| - ptr
  {
    var offset := input[ptr];
    if offset == 0 then Some([])
    else if offset >= 0xC0 then
      if ptr + 1 >= |input| then None
      else
        var target := (offset - 0xC0) * 0x100 + input[ptr + 1];
        if target >= lowest || target >= |input| then None else LabelsAt(input, target, target)
    else if offset >= 0x40 || ptr + offset + 1 >= |input| then None
    else
      var rest := LabelsAt(input, ptr + offset + 1, lowest);
      if rest.None? then None else Some([Text(input[ptr + 1..ptr + 1 + offset])] + rest.value)
  }

  /** One past the name at ptr: its zero octet, or its first pointer. */
  function EndAt(input: seq<int>, ptr: nat): (end: nat)
    requires IsOctets(input)
    ensures end > ptr
    decreases |input| - ptr
  {
    if ptr >= |input| || input[ptr] == 0 then ptr + 1
    else if input[ptr] >= 0xC0 then ptr + 2
    else EndAt(input, ptr + input[ptr] + 1)
  }

  function Dotted(labels: seq<string>): string {
    Join(labels, '.')
  }

  lemma DottedGrows(labels: seq<string>, part: string)
    requires forall i :: 0 <= i < |labels| ==> labels[i] != ""
    ensures Dotted(labels + [part]) == (if Dotted(labels) == "" then part else Dotted(labels) + "." + part)
    ensures Dotted(labels) == "" <==> labels == []
  {
    if labels == [] {
      assert labels + [part] == [part];
    } else {
      JoinGrows(labels, part, '.');
    }
  }

  /** UnpackName has read the labels done and goes on at ptr. */
  ghost predicate Unpacking(input: seq<int>, start: nat, pos: nat, ptr: nat, lowest: nat, compressed: bool, done: seq<string>)
    requires IsOctets(input)
  {
    && start < |input| && ptr < |input| && lowest <= |input|
    && (forall i :: 0 <= i < |done| ==> done[i] != "")
    && LabelsAt(input, start, |input|) ==
       (if LabelsAt(input, ptr, lowest).None? then None else Some(done + LabelsAt(input, ptr, lowest).value))
    && (if compressed then pos + 1 == EndAt(input, start) && pos < |input| else pos == ptr && EndAt(input, pos) == EndAt(input, start))
  }

  lemma UnpackStarts(input: seq<int>, start: nat)
    requires IsOctets(input) && start < |input|
    ensures Unpacking(input, start, start, start, |input|, false, [])
  {
    if LabelsAt(input, start, |input|).Some? {
      assert [] + LabelsAt(input, start, |input|).value == LabelsAt(input, start, |input|).value;
    }
  }

  lemma UnpackJump(input: seq<int>, start: nat, pos: nat, ptr: nat, lowest: nat, compressed: bool, done: seq<string>, target: nat)
    requires IsOctets(input) && Unpacking(input, start, pos, ptr, lowest, compressed, done)
    requires input[ptr] >= 0xC0 && ptr + 1 < |input| && target == (input[ptr] - 0xC0) * 0x100 + input[ptr + 1] && target < lowest
    ensures Unpacking(input, start, if compressed then pos else pos + 1, target, target, true, done)
  {
  }

  lemma UnpackLabel(input: seq<int>, start: nat, pos: nat, ptr: nat, lowest: nat, compressed: bool, done: seq<string>)
    requires IsOctets(input) && Unpacking(input, start, pos, ptr, lowest, compressed, done)
    requires 0 < input[ptr] < 0x40 && ptr + input[ptr] + 1 < |input|
    ensures var next := ptr + input[ptr] + 1;
      Unpacking(input, start, if compressed then pos else next, next, lowest, compressed, done + [Text(input[ptr + 1..next])])
  {
    var next := ptr + input[ptr] + 1;
    var rest := LabelsAt(input, next, lowest);
    if rest.Some? {
      var part := Text(input[ptr + 1..next]);
      assert done + ([part] + rest.value) == done + [part] + rest.value;
    }
  }

  lemma UnpackFails(input: seq<int>, start: nat, pos: nat, ptr: nat, lowest: nat, compressed: bool, done: seq<string>)
    requires IsOctets(input) && Unpacking(input, start, pos, ptr, lowest, compressed, done)
    requires input[ptr] > 0
    requires || (0x40 <= input[ptr] < 0xC0)
             || (input[ptr] >= 0xC0 && (ptr + 1 >= |input| || (input[ptr] - 0xC0) * 0x100 + input[ptr + 1] >= lowest))
             || (input[ptr] < 0x40 && ptr + input[ptr] + 1 >= |input|)
    ensures LabelsAt(input, start, |input|).None?
  {
  }

  lemma UnpackEnds(input: seq<int>, start: nat, pos: nat, ptr: nat, lowest: nat, compressed: bool, done: seq<string>)
    requires IsOctets(input) && Unpacking(input, start, pos, ptr, lowest, compressed, done) && input[ptr] == 0
    ensures LabelsAt(input, start, |input|) == Some(done) && pos + 1 == EndAt(input, start) && pos < |input|
  {
    assert done + [] == done;
  }

  method CopyLabel(input: seq<int>, ptr: nat, name: string, ghost done: seq<string>) returns (longer: string)
    requires IsOctets(input) && ptr < |input| && 0 < input[ptr] && ptr + input[ptr] + 1 < |input|
    requires name == Dotted(done) && forall i :: 0 <= i < |done| ==> done[i] != ""
    ensures longer == Dotted(done + [Text(input[ptr + 1..ptr + 1 + input[ptr]])])
  {
    hide Dotted, Text;
    ghost var bytes := input[ptr + 1..ptr + 1 + input[ptr]];
    ghost var part := Text(bytes);
    DottedGrows(done, part);
    longer := name;
    if name != "" {
      longer := longer + ".";
    }
    ghost var start := longer;
    for i := 1 to input[ptr] + 1
      invariant longer == start + part[..i - 1]
    {
      assert input[ptr + i] == bytes[i - 1];
      longer := longer + [input[ptr + i] as char];
      assert part[..i] == part[..i - 1] + [part[i - 1]];
    }
    assert part[..input[ptr]] == part;
    assert name == "" ==> "" + part == part;
  }

  datatype Unpacked = BadName | Name(name: string, pos: nat)

  /** UnpackName, on input whose size is an unsigned short. */
  method UnpackName(input: seq<int>, start: nat) returns (r: Unpacked)
    requires IsOctets(input) && |input| < 0x1_0000
    ensures r.BadName? <==> start >= |input| || LabelsAt(input, start, |input|).None?
    ensures r.Name? ==> r.name == Dotted(LabelsAt(input, start, |input|).value)
    ensures r.Name? ==> r.pos == EndAt(input, start) && start < r.pos <= |input|
  {
    var name, compressed := "", false;
    var pos: nat, ptr: nat, lowest: nat := start, start, |input|;
    if ptr >= |input| {
      return BadName;
    }
    hide LabelsAt, EndAt;
    ghost var done: seq<string> := [];
    UnpackStarts(input, start);
    while input[ptr] > 0
      invariant ptr < |input| && lowest <= |input| && pos < |input|
      invariant Unpacking(input, start, pos, ptr, lowest, compressed, done)
      invariant name == Dotted(done)
      decreases lowest, |input| - ptr
    {
      var offset := input[ptr];
      if offset >= 0x40 {
        if offset < COMPRESSED || ptr + 1 >= |input| {
          UnpackFails(input, start, pos, ptr, lowest, compressed, done);
          return BadName;
        }
        var target: nat := (offset - COMPRESSED) * 0x100 + input[ptr + 1];
        if target >= lowest {
          UnpackFails(input, start, pos, ptr, lowest, compressed, done);
          return BadName;
        }
        UnpackJump(input, start, pos, ptr, lowest, compressed, done, target);
        if !compressed {
          pos := pos + 1;
          compressed := true;
        }
        ptr := target;
        lowest := target;
      } else {
        if ptr + offset + 1 >= |input| {
          UnpackFails(input, start, pos, ptr, lowest, compressed, done);
          return BadName;
        }
        UnpackLabel(input, start, pos, ptr, lowest, compressed, done);
        name := CopyLabel(input, ptr, name, done);
        done := done + [Text(input[ptr + 1..ptr + 1 + offset])];
        ptr := ptr + offset + 1;
        if !compressed {
          pos := ptr;
        }
      }
    }
    UnpackEnds(input, start, pos, ptr, lowest, compressed, done);
    pos := pos + 1;
    r := Name(name, pos);
  }

  // ---------- round trip ----------

  ghost predicate ShortLabels(labels: seq<string>) {
    forall i :: 0 <= i < |labels| ==> 1 <= |labels[i]| <= 63 && IsByteString(labels[i])
  }

  /** The octets of b stand in the input at position at. */
  ghost predicate Holds(input: seq<int>, at: nat, b: seq<int>) {
    at + |b| <= |input| && input[at..at + |b|] == b
  }

  lemma HoldsParts(input: seq<int>, at: nat, b: seq<int>, c: seq<int>)
    ensures Holds(input, at, b + c) <==> Holds(input, at, b) && Holds(input, at + |b|, c)
  {
    if at + |b| + |c| <= |input| {
      var x, y := input[at..at + |b|], input[at + |b|..at + |b| + |c|];
      assert input[at..at + |b + c|] == x + y;
      if x + y == b + c {
        assert (x + y)[..|b|] == x && (b + c)[..|b|] == b;
        assert (x + y)[|b|..] == y && (b + c)[|b|..] == c;
      }
    }
  }

  lemma {:induction false} LabelsRead(input: seq<int>, at: nat, lowest: nat, labels: seq<string>)
    requires IsOctets(input) && ShortLabels(labels)
    requires Holds(input, at, EncodeLabels(labels) + [0])
    ensures at < |input| && LabelsAt(input, at, lowest) == Some(labels)
    ensures EndAt(input, at) == at + |EncodeLabels(labels)| + 1
    decreases |labels|
  {
    hide LabelsAt, EndAt, EncodeLabel, IsByteString;
    if labels == [] {
      assert EncodeLabels(labels) + [0] == [0];
      ZeroRead(input, at, lowest);
    } else {
      var first, rest := EncodeLabel(labels[0]), EncodeLabels(labels[1..]);
      assert EncodeLabels(labels) + [0] == first + (rest + [0]);
      HoldsParts(input, at, first, rest + [0]);
      LabelsRead(input, at + |first|, lowest, labels[1..]);
      LabelRead(input, at, lowest, labels[0], labels[1..]);
      assert labels == [labels[0]] + labels[1..];
    }
  }

  lemma ZeroRead(input: seq<int>, at: nat, lowest: nat)
    requires IsOctets(input) && Holds(input, at, [0])
    ensures at < |input| && LabelsAt(input, at, lowest) == Some([]) && EndAt(input, at) == at + 1
  {
    assert input[at..at + 1][0] == 0;
  }

  lemma LabelRead(input: seq<int>, at: nat, lowest: nat, part: string, rest: seq<string>)
    requires IsOctets(input) && 1 <= |part| <= 63 && IsByteString(part)
    requires Holds(input, at, EncodeLabel(part)) && at + |part| + 1 < |input|
    requires LabelsAt(input, at + |part| + 1, lowest) == Some(rest)
    ensures LabelsAt(input, at, lowest) == Some([part] + rest)
    ensures EndAt(input, at) == EndAt(input, at + |part| + 1)
  {
    var b, n := EncodeLabel(part), |part|;
    assert input[at..at + |b|][0] == input[at] == n;
    var bytes := input[at + 1..at + 1 + n];
    assert bytes == b[1..] by {
      assert input[at..at + |b|][1..] == bytes;
    }
    assert b[1..] == Bytes(part);
    TextOfBytes(part);
    assert Text(input[at + 1..at + 1 + input[at]]) == part;
  }

  /** A name may end in a pointer, two octets that begin with two set bits: the labels at the place it gives follow,
      and the name itself ends behind it. */
  lemma {:induction false} CompressedRead(input: seq<int>, at: nat, lowest: nat, front: seq<string>, target: nat, rest: seq<string>)
    requires IsOctets(input) && ShortLabels(front) && target < 0x4000 && target < lowest && target < |input|
    requires Holds(input, at, EncodeLabels(front) + [0xC0 + target / 0x100, target % 0x100])
    requires LabelsAt(input, target, target) == Some(rest)
    ensures at < |input| && LabelsAt(input, at, lowest) == Some(front + rest)
    ensures EndAt(input, at) == at + |EncodeLabels(front)| + 2
    decreases |front|
  {
    hide LabelsAt, EndAt, EncodeLabel, IsByteString;
    var pointer := [0xC0 + target / 0x100, target % 0x100];
    if front == [] {
      assert EncodeLabels(front) + pointer == pointer && front + rest == rest;
      PointerRead(input, at, lowest, target);
    } else {
      var first, others := EncodeLabel(front[0]), EncodeLabels(front[1..]);
      assert EncodeLabels(front) + pointer == first + (others + pointer);
      HoldsParts(input, at, first, others + pointer);
      CompressedRead(input, at + |first|, lowest, front[1..], target, rest);
      LabelRead(input, at, lowest, front[0], front[1..] + rest);
      assert front + rest == [front[0]] + (front[1..] + rest);
    }
  }

  lemma PointerRead(input: seq<int>, at: nat, lowest: nat, target: nat)
    requires IsOctets(input) && target < 0x4000 && target < lowest && target < |input|
    requires Holds(input, at, [0xC0 + target / 0x100, target % 0x100])
    ensures at + 1 < |input| && LabelsAt(input, at, lowest) == LabelsAt(input, target, target) && EndAt(input, at) == at + 2
  {
    assert input[at..at + 2][0] == input[at] && input[at..at + 2][1] == input[at + 1];
  }

  predicate IsDotted(name: string) {
    name == "" || "" !in Split(name, '.')
  }

  lemma {:induction false} JoinLength(pieces: seq<string>, sep: char)
    requires pieces != []
    ensures |Join(pieces, sep)| == Room(pieces) - 1
  {
    if |pieces| > 1 {
      JoinLength(pieces[1..], sep);
    }
  }

  lemma {:induction false} DroppedPieces(pieces: seq<string>)
    ensures Room(NonEmpty(pieces)) <= Room(pieces)
    ensures "" in pieces ==> Room(NonEmpty(pieces)) < Room(pieces)
    ensures "" !in pieces ==> NonEmpty(pieces) == pieces
  {
    if pieces != [] {
      DroppedPieces(pieces[1..]);
    }
  }

  /** The labels spell the name exactly when none of them was empty. */
  lemma LabelsSpell(name: string)
    ensures Dotted(Labels(name)) == name <==> IsDotted(name)
  {
    var pieces := Split(name, '.');
    JoinSplit(name, '.');
    DroppedPieces(pieces);
    if name == "" {
      SplitNone("", '.');
      assert NonEmpty([""]) == NonEmpty([]);
    } else if "" in pieces && Labels(name) != [] {
      JoinLength(Labels(name), '.');
      JoinLength(pieces, '.');
    }
  }

  /** A packed name with labels of 1 to 63 octets is read back as these labels. */
  lemma NameReadBack(input: seq<int>, at: nat, name: string)
    requires IsOctets(input) && ShortLabels(Labels(name)) && Holds(input, at, EncodeName(name))
    ensures at < |input| && LabelsAt(input, at, |input|) == Some(Labels(name)) && EndAt(input, at) == at + |EncodeName(name)|
    ensures Dotted(LabelsAt(input, at, |input|).value) == name <==> IsDotted(name)
  {
    LabelsRead(input, at, |input|, Labels(name));
    LabelsSpell(name);
  }

  ghost predicate ShortPieces(name: string) {
    forall piece :: piece in Split(name, '.') ==> |piece| <= 63
  }

  lemma {:induction false} LabelsAreShort(input: seq<int>, ptr: nat, lowest: nat)
    requires IsOctets(input) && ptr < |input| && LabelsAt(input, ptr, lowest).Some?
    ensures forall part :: part in LabelsAt(input, ptr, lowest).value ==> 1 <= |part| <= 63
    decreases lowest, |input| - ptr
  {
    var offset := input[ptr];
    if offset >= 0xC0 {
      var target := (offset - 0xC0) * 0x100 + input[ptr + 1];
      LabelsAreShort(input, target, target);
    } else if offset > 0 {
      LabelsAreShort(input, ptr + offset + 1, lowest);
    }
  }

  /** Joining short labels, dots inside them or not, gives a name of short pieces. */
  lemma {:induction false} JoinIsShort(labels: seq<string>)
    requires forall i :: 0 <= i < |labels| ==> |labels[i]| <= 63
    ensures ShortPieces(Dotted(labels))
  {
    if labels == [] {
      SplitNone("", '.');
    } else if |labels| == 1 {
      forall piece | piece in Split(labels[0], '.')
        ensures |piece| <= 63
      {
        PieceLength(labels[0], '.', piece);
      }
    } else {
      JoinIsShort(labels[1..]);
      SplitConcat(labels[0], '.', Dotted(labels[1..]));
      forall piece | piece in Split(labels[0], '.')
        ensures |piece| <= 63
      {
        PieceLength(labels[0], '.', piece);
      }
      hide Split;
      assert Dotted(labels) == labels[0] + "." + Dotted(labels[1..]);
    }
  }

  /** Unpacking what was packed gives the name back, at any offset of any input, if and only if the name has no empty
      label and no label over 63 octets. */
  lemma NameRoundTrip(input: seq<int>, at: nat, name: string)
    requires IsOctets(input) && IsByteString(name) && Holds(input, at, EncodeName(name))
    ensures at < |input|
    ensures (LabelsAt(input, at, |input|).Some? && Dotted(LabelsAt(input, at, |input|).value) == name) <==>
      (IsDotted(name) && ShortPieces(name))
  {
    if ShortPieces(name) {
      PiecesAreShortLabels(name);
      NameReadBack(input, at, name);
    } else if LabelsAt(input, at, |input|).Some? {
      LabelsAreShort(input, at, |input|);
      JoinIsShort(LabelsAt(input, at, |input|).value);
    }
  }

  lemma PiecesAreShortLabels(name: string)
    requires IsByteString(name) && ShortPieces(name)
    ensures ShortLabels(Labels(name))
  {
    forall i | 0 <= i < |Labels(name)|
      ensures IsByteString(Labels(name)[i])
    {
      PieceOfBytes(name, Labels(name)[i]);
    }
  }

  lemma {:induction false} PieceOfBytes(s: string, piece: string)
    requires IsByteString(s) && piece in Split(s, '.')
    ensures IsByteString(piece)
    decreases |s|
  {
    var p := Find(s, '.', 0);
    if p.Some? && piece != s[..p.value] {
      PieceOfBytes(s[p.value + 1..], piece);
    }
  }

  /** A dotted name needs at least as many octets as it has characters, and one more. */
  lemma DottedNeeds(name: string)
    requires IsDotted(name)
    ensures |EncodeName(name)| >= |name| + 1
  {
    if name != "" {
      DroppedPieces(Split(name, '.'));
      RoomOfSplit(name, '.');
      RoomOfLabels(Labels(name));
    }
  }

  lemma {:induction false} RoomOfLabels(labels: seq<string>)
    ensures |EncodeLabels(labels)| == Room(labels)
  {
    if labels != [] {
      RoomOfLabels(labels[1..]);
    }
  }

  /** A name with an empty label comes back without it. */
  lemma EmptyLabelIsLost()
    ensures EncodeName("a..b") == [1, 97, 1, 98, 0]
    ensures LabelsAt(EncodeName("a..b"), 0, |EncodeName("a..b")|) == Some(["a", "b"]) && Dotted(["a", "b"]) == "a.b"
  {
    hide Split, NonEmpty, Join, LabelsAt, EncodeLabels;
    LabelsOfExample();
    OctetsOfExample();
    var input := EncodeName("a..b");
    assert input[0..0 + |input|] == input;
    LabelsRead(input, 0, |input|, ["a", "b"]);
    JoinGrows(["a"], "b", '.');
    assert ["a"] + ["b"] == ["a", "b"];
    assert Dotted(["a"]) == "a" by {
      JoinOne("a");
    }
  }

  lemma OctetsOfExample()
    ensures EncodeLabels(["a", "b"]) == [1, 97, 1, 98]
  {
    assert ["a", "b"][1..] == ["b"] && ["b"][1..] == [];
    assert EncodeLabels(["b"]) == EncodeLabel("b") + EncodeLabels([]);
    assert EncodeLabel("a") == [1, 97] && EncodeLabel("b") == [1, 98];
  }

  lemma JoinOne(piece: string)
    ensures Join([piece], '.') == piece
  {
  }

  lemma LabelsOfExample()
    ensures Labels("a..b") == ["a", "b"]
  {
    hide Split, NonEmpty;
    assert "a..b" == "a" + "." + ".b" && ".b" == "" + "." + "b";
    SplitFirst("a", '.', ".b");
    SplitFirst("", '.', "b");
    SplitNone("b", '.');
    assert Split("a..b", '.') == ["a", "", "b"];
    MiddleSkipped();
  }

  lemma MiddleSkipped()
    ensures NonEmpty(["a", "", "b"]) == ["a", "b"]
  {
    assert ["a", "", "b"][1..] == ["", "b"] && ["", "b"][1..] == ["b"] && ["b"][1..] == [];
    assert NonEmpty(["b"]) == ["b"] + NonEmpty([]);
    assert NonEmpty(["", "b"]) == ["b"];
  }
}
