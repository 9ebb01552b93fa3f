/** The IRC line printer and parser of src/process.cpp, for RFC 1459 section 2.3.1 with message tags. */
module Wire {
  import opened Wrappers
  import opened Strings
  import opened SepStream

  const NPOS: nat := 0xFFFF_FFFF_FFFF_FFFF

  // ---------- the tokenizer ----------

  function TakeWord(s: string): string {
    var p := Find(s, ' ', 0);
    if p.None? then s else s[..p.value]
  }

  /** What follows the first word and the spaces behind it. */
  function DropWord(s: string): (r: string)
    ensures |r| <= |s| && (s != "" ==> |r| < |s|)
    ensures r != "" ==> r[0] != ' '
  {
    var p := Find(s, ' ', 0);
    if p.None? then ""
    else
      var q := FindNot(s, ' ', p.value);
      if q.None? then "" else s[q.value..]
  }

  class MessageTokenizer {
    const message: string
    var position: nat

    constructor (msg: string)
      ensures message == msg && position == 0 && Rest() == msg
    {
      message, position := msg, 0;
      assert msg[0..] == msg;
    }

    function Rest(): string
      reads this
    {
      if position >= |message| then "" else message[position..]
    }

    method GetMiddle() returns (ok: bool, token: string)
      requires |message| < NPOS
      modifies this
      ensures ok <==> old(Rest()) != ""
      ensures ok ==> token == TakeWord(old(Rest())) && Rest() == DropWord(old(Rest()))
      ensures !ok ==> token == "" && Rest() == ""
    {
      if position >= |message| {
        return false, "";
      }
      FindInRest(message, ' ', position);
      var separator := Find(message, ' ', position);
      if separator.None? {
        token := message[position..];
        position := |message|;
        return true, token;
      }
      FindNotInRest(message, ' ', position, separator.value);
      token := message[position..separator.value];
      var next := FindNot(message, ' ', separator.value);
      position := if next.None? then NPOS else next.value;
      ok := true;
    }

    method GetTrailing() returns (ok: bool, token: string)
      requires |message| < NPOS
      modifies this
      ensures ok <==> old(Rest()) != ""
      ensures ok ==> [token] + Params(Rest()) == Params(old(Rest())) && |Rest()| < |old(Rest())|
      ensures !ok ==> token == "" && Rest() == ""
    {
      if position >= |message| {
        return false, "";
      }
      if message[position] == ':' {
        token := message[position + 1..];
        position := |message|;
        return true, token;
      }
      ok, token := GetMiddle();
    }
  }

  lemma FindInRest(s: string, c: char, start: nat)
    requires start <= |s|
    ensures var p, q := Find(s, c, start), Find(s[start..], c, 0);
      (p.None? <==> q.None?) && (p.Some? ==> p.value == start + q.value)
  {
    var p, q := Find(s, c, start), Find(s[start..], c, 0);
    if p.Some? {
      assert s[start..][p.value - start] == c;
    }
  }

  lemma FindNotInRest(s: string, c: char, start: nat, at: nat)
    requires start <= at <= |s|
    ensures var p, q := FindNot(s, c, at), FindNot(s[start..], c, at - start);
      (p.None? <==> q.None?) && (p.Some? ==> p.value == start + q.value)
  {
    var p, q := FindNot(s, c, at), FindNot(s[start..], c, at - start);
    if p.Some? {
      assert s[start..][p.value - start] != c;
    }
  }

  // ---------- tags ----------

  type Tag = (string, string)
  type Order = (string, string) -> bool

  /** The comparison of a std::map: a strict weak order. */
  ghost predicate IsOrder(less: Order) {
    && (forall a :: !less(a, a))
    && (forall a, b, c :: less(a, b) && less(b, c) ==> less(a, c))
    && (forall a, b, c :: less(a, b) ==> less(a, c) || less(c, b))
  }

  /** A map as the sequence of its items in the order of their keys. */
  ghost predicate Ascending(less: Order, tags: seq<Tag>) {
    forall i, j :: 0 <= i < j < |tags| ==> less(tags[i].0, tags[j].0)
  }

  /** Map assignment: an equal key keeps its place and spelling. */
  function Put(less: Order, tags: seq<Tag>, key: string, value: string): seq<Tag> {
    if tags == [] then [(key, value)]
    else if less(tags[0].0, key) then [tags[0]] + Put(less, tags[1..], key, value)
    else if less(key, tags[0].0) then [(key, value)] + tags
    else [(tags[0].0, value)] + tags[1..]
  }

  /** The value already at the key, or the empty one. */
  function Get(less: Order, tags: seq<Tag>, key: string): string {
    if tags == [] then ""
    else if less(tags[0].0, key) then Get(less, tags[1..], key)
    else if less(key, tags[0].0) then ""
    else tags[0].1
  }

  lemma {:induction false} PutKeepsOrder(less: Order, tags: seq<Tag>, key: string, value: string)
    requires IsOrder(less) && Ascending(less, tags)
    ensures Ascending(less, Put(less, tags, key, value))
    ensures forall i :: 0 <= i < |Put(less, tags, key, value)| ==>
      Put(less, tags, key, value)[i].0 == key || exists k :: 0 <= k < |tags| && tags[k].0 == Put(less, tags, key, value)[i].0
  {
    if tags != [] && less(tags[0].0, key) {
      var rest := Put(less, tags[1..], key, value);
      TailAscends(less, tags);
      PutKeepsOrder(less, tags[1..], key, value);
      forall i | 0 <= i < |rest|
        ensures less(tags[0].0, rest[i].0)
        ensures rest[i].0 == key || exists k :: 0 <= k < |tags| && tags[k].0 == rest[i].0
      {
        if rest[i].0 != key {
          var k :| 0 <= k < |tags[1..]| && tags[1..][k].0 == rest[i].0;
          assert tags[k + 1].0 == rest[i].0;
        }
      }
      HeadAscends(less, tags[0], rest);
      assert Put(less, tags, key, value) == [tags[0]] + rest;
      hide Put, Ascending, IsOrder;
    } else {
      PutInFront(less, tags, key, value);
    }
  }

  lemma TailAscends(less: Order, tags: seq<Tag>)
    requires tags != [] && Ascending(less, tags)
    ensures Ascending(less, tags[1..])
  {
    assert forall i :: 0 <= i < |tags[1..]| ==> tags[1..][i] == tags[i + 1];
  }

  lemma HeadAscends(less: Order, first: Tag, rest: seq<Tag>)
    requires Ascending(less, rest) && forall i :: 0 <= i < |rest| ==> less(first.0, rest[i].0)
    ensures Ascending(less, [first] + rest)
  {
  }

  lemma PutInFront(less: Order, tags: seq<Tag>, key: string, value: string)
    requires IsOrder(less) && Ascending(less, tags) && (tags == [] || !less(tags[0].0, key))
    ensures Ascending(less, Put(less, tags, key, value))
    ensures forall i :: 0 <= i < |Put(less, tags, key, value)| ==>
      Put(less, tags, key, value)[i].0 == key || exists k :: 0 <= k < |tags| && tags[k].0 == Put(less, tags, key, value)[i].0
  {
    if tags != [] {
      if less(key, tags[0].0) {
        forall i | 0 <= i < |tags|
          ensures less(key, tags[i].0)
        {
          assert i > 0 ==> less(tags[0].0, tags[i].0);
        }
        HeadAscends(less, (key, value), tags);
        assert forall k :: 0 <= k < |tags| ==> ([(key, value)] + tags)[k + 1] == tags[k];
      } else {
        var put := [(tags[0].0, value)] + tags[1..];
        assert forall k :: 0 <= k < |tags| ==> put[k].0 == tags[k].0;
      }
    }
  }

  lemma {:induction false} PutLast(less: Order, tags: seq<Tag>, key: string, value: string)
    requires forall i :: 0 <= i < |tags| ==> less(tags[i].0, key)
    ensures Put(less, tags, key, value) == tags + [(key, value)]
    ensures Get(less, tags, key) == ""
  {
    if tags != [] {
      PutLast(less, tags[1..], key, value);
    }
  }

  /** One token of the tag section. */
  function AddTag(less: Order, tags: seq<Tag>, token: string): seq<Tag> {
    var valsep := Find(token, '=', 0);
    if valsep.None? then Put(less, tags, token, Get(less, tags, token))
    else Put(less, tags, token[..valsep.value], token[valsep.value + 1..])
  }

  function AddTags(less: Order, tags: seq<Tag>, tokens: seq<string>): seq<Tag>
    decreases |tokens|
  {
    if tokens == [] then tags else AddTags(less, AddTag(less, tags, tokens[0]), tokens[1..])
  }

  // ---------- parsing ----------

  function Params(rest: string): seq<string>
    decreases |rest|
  {
    if rest == "" then []
    else if rest[0] == ':' then [rest[1..]]
    else [TakeWord(rest)] + Params(DropWord(rest))
  }

  datatype Line = Line(tags: seq<Tag>, source: string, command: string, params: seq<string>)

  predicate Begins(s: string, c: char) {
    s != "" && s[0] == c
  }

  /** The part of the line from the source on. */
  function ParseBody(tags: seq<Tag>, rest: string): Option<Line>
    requires rest != ""
  {
    var first, after := TakeWord(rest), DropWord(rest);
    if Begins(first, ':') then
      if after == "" then None else Some(Line(tags, first[1..], TakeWord(after), Params(DropWord(after))))
    else
      Some(Line(tags, "", first, Params(after)))
  }

  function ParseLine(less: Order, buffer: string): Option<Line>
    requires buffer != ""
  {
    var first, after := TakeWord(buffer), DropWord(buffer);
    if Begins(first, '@') then
      var tags := AddTags(less, [], NonEmpty(Split(first[1..], ';')));
      if after == "" then None else ParseBody(tags, after)
    else
      ParseBody([], buffer)
  }

  method ParseTags(less: Order, section: string) returns (tags: seq<Tag>)
    ensures tags == AddTags(less, [], NonEmpty(Split(section, ';')))
  {
    hide AddTags, AddTag, Put, Get, NonEmpty, Split, Pending;
    tags := [];
    var tagstream := new SepStream(section, ';', false);
    ghost var all := tagstream.Left();
    var ok, token := tagstream.GetToken();
    ghost var left := all;
    while ok
      invariant tagstream.tokens == section
      invariant AddTags(less, [], all) == AddTags(less, tags, left)
      invariant ok <==> left != []
      invariant ok ==> token == left[0] && tagstream.Left() == left[1..] && tagstream.pos <= |section| + 1
      decreases |left|
    {
      AddTagsStep(less, tags, left);
      tags := OneTag(less, tags, token);
      left := left[1..];
      ok, token := tagstream.GetToken();
    }
    AddTagsStep(less, tags, left);
  }

  method OneTag(less: Order, tags: seq<Tag>, token: string) returns (r: seq<Tag>)
    ensures r == AddTag(less, tags, token)
  {
    var valsep := Find(token, '=', 0);
    if valsep.None? {
      r := Put(less, tags, token, Get(less, tags, token));
    } else {
      r := Put(less, tags, token[..valsep.value], token[valsep.value + 1..]);
    }
  }

  lemma AddTagsStep(less: Order, tags: seq<Tag>, tokens: seq<string>)
    ensures AddTags(less, tags, tokens) == if tokens == [] then tags else AddTags(less, AddTag(less, tags, tokens[0]), tokens[1..])
  {
  }

  method ParseParams(tokens: MessageTokenizer) returns (params: seq<string>)
    requires |tokens.message| < NPOS
    modifies tokens
    ensures params == Params(old(tokens.Rest()))
  {
    hide TakeWord, DropWord;
    params := [];
    ghost var all := Params(tokens.Rest());
    var ok, token := tokens.GetTrailing();
    while ok
      invariant all == params + (if ok then [token] + Params(tokens.Rest()) else [])
      invariant !ok ==> tokens.Rest() == ""
      decreases ok, |tokens.Rest()|
    {
      hide Params;
      params := params + [token];
      ghost var left := Params(tokens.Rest());
      assert all == params + left;
      ParamsEnd(tokens.Rest());
      ok, token := tokens.GetTrailing();
    }
  }

  lemma ParamsEnd(rest: string)
    ensures Params(rest) == [] <==> rest == ""
  {
  }

  /** Parse; Anope::Process calls it only for a line that is not empty. */
  method Parse(less: Order, buffer: string) returns (ok: bool, line: Line)
    requires buffer != "" && |buffer| < NPOS
    ensures ok <==> ParseLine(less, buffer).Some?
    ensures ok ==> line == ParseLine(less, buffer).value
  {
    hide TakeWord, DropWord, Params, AddTags, NonEmpty, Split;
    line := Line([], "", "", []);
    var tokens := new MessageTokenizer(buffer);
    var token;
    ok, token := tokens.GetMiddle();
    if Begins(token, '@') {
      var tags := ParseTags(less, token[1..]);
      line := line.(tags := tags);
      ok, token := tokens.GetMiddle();
      if !ok {
        return;
      }
    }
    if Begins(token, ':') {
      line := line.(source := token[1..]);
      ok, token := tokens.GetMiddle();
      if !ok {
        return;
      }
    }
    line := line.(command := token);
    var params := ParseParams(tokens);
    line := line.(params := params);
    ok := true;
  }

  // ---------- printing ----------

  /** Whom a message is from, with what Format asks about them. */
  datatype Source =
    | NoSource
    | FromServer(sid: string, isMe: bool, juped: bool)
    | FromUser(uid: string, onMe: bool, onJuped: bool, introducedBot: Option<bool>)
  {
    function Id(): string {
      match this
      case NoSource => ""
      case FromServer(sid, _, _) => sid
      case FromUser(uid, _, _, _) => uid
    }
  }

  type Validity = (string, string) -> bool

  function ValidTags(valid: Validity, tags: seq<Tag>): (r: seq<Tag>)
    ensures forall i :: 0 <= i < |r| ==> r[i] in tags && valid(r[i].0, r[i].1)
  {
    if tags == [] then []
    else if valid(tags[0].0, tags[0].1) then [tags[0]] + ValidTags(valid, tags[1..])
    else ValidTags(valid, tags[1..])
  }

  function TagToken(tag: Tag): string {
    tag.0 + if tag.1 == "" then "" else "=" + tag.1
  }

  function TagTokens(tags: seq<Tag>): (r: seq<string>)
    ensures |r| == |tags| && forall i :: 0 <= i < |r| ==> r[i] == TagToken(tags[i])
  {
    if tags == [] then [] else [TagToken(tags[0])] + TagTokens(tags[1..])
  }

  function PrintTags(tags: seq<Tag>): string {
    if tags == [] then "" else "@" + Join(TagTokens(tags), ';') + " "
  }

  function PrintSource(source: Source): string {
    if source.NoSource? then "" else ":" + source.Id() + " "
  }

  predicate NeedsColon(last: string) {
    last == "" || last[0] == ':' || ' ' in last
  }

  function PrintParams(params: seq<string>): string {
    if params == [] then ""
    else if |params| == 1 then " " + (if NeedsColon(params[0]) then ":" else "") + params[0]
    else " " + params[0] + PrintParams(params[1..])
  }

  function PrintLine(valid: Validity, tags: seq<Tag>, source: Source, command: string, params: seq<string>): string {
    PrintTags(ValidTags(valid, tags)) + PrintSource(source) + command + PrintParams(params)
  }

  /** What is in the buffer after these tags, before the closing space. */
  function Printed(tags: seq<Tag>): string {
    if tags == [] then "" else "@" + Join(TagTokens(tags), ';')
  }

  method FormatTags(valid: Validity, tags: seq<Tag>) returns (buffer: string)
    ensures buffer == PrintTags(ValidTags(valid, tags))
  {
    hide Join, TagTokens, Printed, ValidTags, PrintTags;
    buffer := "";
    PrintedEnds(valid, tags);
    ghost var done: seq<Tag> := [];
    if tags != [] {
      var separator := '@';
      assert tags[0..] == tags;
      PrintedEnds(valid, []);
      for i := 0 to |tags|
        invariant ValidTags(valid, tags) == done + ValidTags(valid, tags[i..])
        invariant buffer == Printed(done) && separator == if done == [] then '@' else ';'
      {
        ValidTagsStep(valid, tags, i);
        var (tname, tvalue) := tags[i];
        if valid(tname, tvalue) {
          PrintedGrows(done, tags[i]);
          buffer := buffer + [separator] + tname;
          if tvalue != "" {
            buffer := buffer + "=" + tvalue;
          }
          separator := ';';
          done := done + [tags[i]];
        }
      }
      assert tags[|tags|..] == [];
      assert ValidTags(valid, tags) == done + [] == done;
      PrintedEnds(valid, done);
      if separator != '@' {
        buffer := buffer + " ";
      }
    }
  }

  lemma PrintedEnds(valid: Validity, tags: seq<Tag>)
    ensures PrintTags(tags) == if tags == [] then Printed(tags) else Printed(tags) + " "
    ensures tags == [] ==> ValidTags(valid, tags) == [] && Printed(tags) == ""
  {
  }

  lemma ValidTagsStep(valid: Validity, tags: seq<Tag>, i: nat)
    requires i < |tags|
    ensures ValidTags(valid, tags[i..]) ==
      (if valid(tags[i].0, tags[i].1) then [tags[i]] else []) + ValidTags(valid, tags[i + 1..])
  {
    assert tags[i..][1..] == tags[i + 1..];
  }

  lemma PrintedGrows(tags: seq<Tag>, tag: Tag)
    ensures Printed(tags + [tag]) == Printed(tags) + [if tags == [] then '@' else ';'] + tag.0 + if tag.1 == "" then "" else "=" + tag.1
  {
    TokensGrow(tags, tag);
    if tags == [] {
      assert TagTokens([tag]) == [TagToken(tag)];
      assert Printed([tag]) == "@" + TagToken(tag);
    } else {
      JoinGrows(TagTokens(tags), TagToken(tag), ';');
    }
  }

  lemma {:induction false} TokensGrow(tags: seq<Tag>, tag: Tag)
    ensures TagTokens(tags + [tag]) == TagTokens(tags) + [TagToken(tag)]
  {
    if tags != [] {
      TokensGrow(tags[1..], tag);
      assert (tags + [tag])[1..] == tags[1..] + [tag];
    }
  }

  method FormatParams(params: seq<string>) returns (buffer: string)
    ensures buffer == PrintParams(params)
  {
    buffer := "";
    if params != [] {
      buffer := buffer + " ";
      assert params[0..] == params;
      for i := 0 to |params| - 1
        invariant buffer + PrintParams(params[i..])[1..] == PrintParams(params)
      {
        assert params[i..][0] == params[i] && params[i..][1..] == params[i + 1..];
        assert PrintParams(params[i + 1..])[0] == ' ';
        assert PrintParams(params[i..])[1..] == params[i] + " " + PrintParams(params[i + 1..])[1..];
        buffer := buffer + params[i] + " ";
      }
      assert params[|params| - 1..] == [params[|params| - 1]];
      var last := params[|params| - 1];
      if NeedsColon(last) {
        buffer := buffer + ":";
      }
      buffer := buffer + last;
    }
  }

  method Format(valid: Validity, tags: seq<Tag>, source: Source, command: string, params: seq<string>) returns (ok: bool, message: string)
    ensures source.NoSource? ==> ok
    ensures source.FromServer? ==> (ok <==> source.isMe || source.juped)
    ensures source.FromUser? ==> (ok <==> (source.onMe || source.onJuped) && source.introducedBot != Some(false))
    ensures ok ==> message == PrintLine(valid, tags, source, command, params)
  {
    hide PrintTags, ValidTags, PrintParams;
    var buffer := FormatTags(valid, tags);
    message := "";
    if source.FromServer? {
      if !source.isMe && !source.juped {
        return false, message;
      }
      buffer := buffer + ":" + source.sid + " ";
    } else if source.FromUser? {
      if !source.onMe && !source.onJuped {
        return false, message;
      }
      if source.introducedBot.Some? && !source.introducedBot.value {
        return false, message;
      }
      buffer := buffer + ":" + source.uid + " ";
    }
    buffer := buffer + command;
    var rest := FormatParams(params);
    buffer := buffer + rest;
    assert source.NoSource? ==> PrintTags(ValidTags(valid, tags)) + "" == PrintTags(ValidTags(valid, tags));
    ok, message := true, buffer;
  }

  /** A line as it stands on the wire. */
  lemma LineExample(valid: Validity)
    requires valid("a", "b") && valid("c", "") && !valid("x", "")
    ensures PrintLine(valid, [("a", "b"), ("c", ""), ("x", "")], FromUser("0AA", true, false, None), "PRIVMSG", ["#c", "hi there"])
      == "@a=b;c :0AA PRIVMSG #c :hi there"
  {
    hide PrintParams, PrintTags, ValidTags;
    ParamsExample();
    TagsExample(valid);
  }

  lemma ParamsExample()
    ensures PrintParams(["#c", "hi there"]) == " #c :hi there"
  {
    assert "hi there"[2] == ' ';
    assert ["#c", "hi there"][1..] == ["hi there"];
    assert PrintParams(["hi there"]) == " :hi there";
  }

  lemma TagsExample(valid: Validity)
    requires valid("a", "b") && valid("c", "") && !valid("x", "")
    ensures PrintTags(ValidTags(valid, [("a", "b"), ("c", ""), ("x", "")])) == "@a=b;c "
  {
    var tags := [("a", "b"), ("c", ""), ("x", "")];
    assert tags[1..] == [("c", ""), ("x", "")] && tags[1..][1..] == [("x", "")] && tags[1..][1..][1..] == [];
    assert ValidTags(valid, tags[1..][1..]) == ValidTags(valid, []) == [];
    assert ValidTags(valid, tags[1..]) == [("c", "")];
    assert ValidTags(valid, tags) == [("a", "b"), ("c", "")];
    assert [("a", "b"), ("c", "")][1..] == [("c", "")] && [("c", "")][1..] == [];
    assert TagToken(("a", "b")) == "a=b" && TagToken(("c", "")) == "c";
    assert TagTokens([("a", "b"), ("c", "")]) == ["a=b", "c"];
    assert ["a=b", "c"][1..] == ["c"] && Join(["c"], ';') == "c" && Join(["a=b", "c"], ';') == "a=b" + [';'] + "c";
  }

  function Words(params: seq<string>): string {
    if params == [] then "" else " " + params[0] + Words(params[1..])
  }

  /** Only the last parameter has a colon, and only if it would be misread without. */
  lemma {:induction false} ColonWhereNeeded(front: seq<string>, last: string)
    ensures PrintParams(front + [last]) ==
      Words(front) + (" " + (if last == "" || last[0] == ':' || ' ' in last then ":" else "") + last)
  {
    var all := front + [last];
    if front == [] {
      assert all == [last];
      assert Words(front) + PrintParams([last]) == PrintParams([last]);
    } else {
      assert all[0] == front[0] && all[1..] == front[1..] + [last];
      ColonWhereNeeded(front[1..], last);
    }
  }

  // ---------- round trip ----------

  predicate Word(s: string) {
    s != "" && ' ' !in s
  }

  /** A tag that is not nothing and holds no character with a meaning in the tag section. */
  predicate PlainTag(tag: Tag) {
    && (tag.0 != "" || tag.1 != "")
    && (forall i :: 0 <= i < |tag.0| ==> tag.0[i] !in "=; ")
    && (forall i :: 0 <= i < |tag.1| ==> tag.1[i] !in "; ")
  }

  predicate PlainParams(params: seq<string>) {
    forall i :: 0 <= i < |params| - 1 ==> Word(params[i]) && params[i][0] != ':'
  }

  /** The command is a word, and is not taken for the sections that come before it when those are missing. */
  predicate PlainCommand(tags: seq<Tag>, source: Source, command: string) {
    && Word(command)
    && (source.NoSource? ==> command[0] != ':')
    && (source.NoSource? && tags == [] ==> command[0] != '@')
  }

  lemma WordSplits(w: string, rest: string)
    requires ' ' !in w && (rest == "" || rest[0] == ' ')
    ensures TakeWord(w + rest) == w
    ensures rest == "" ==> DropWord(w + rest) == ""
    ensures rest != "" && (|rest| > 1 ==> rest[1] != ' ') ==> DropWord(w + rest) == rest[1..]
  {
    var s := w + rest;
    if rest != "" {
      assert s[|w|] == ' ';
      assert Find(s, ' ', 0) == Some(|w|);
      if |rest| > 1 && rest[1] != ' ' {
        assert s[|w| + 1] == rest[1];
        assert FindNot(s, ' ', |w|) == Some(|w| + 1);
        assert s[|w| + 1..] == rest[1..];
      }
    }
  }

  /** What the printer puts behind the command is read back as the same parameters. */
  lemma {:induction false} ParamsRead(params: seq<string>)
    requires PlainParams(params) && params != []
    ensures var text := PrintParams(params);
      text != "" && text[0] == ' ' && (|text| > 1 ==> text[1] != ' ') && Params(text[1..]) == params
  {
    hide Params;
    if |params| == 1 {
      assert params == [params[0]];
      LastParamRead(params[0]);
    } else {
      var rest := params[1..];
      assert params == [params[0]] + rest && PlainParams(rest) && Word(params[0]);
      ParamsRead(rest);
      hide PrintParams;
      MiddleParamRead(params[0], PrintParams(rest));
      PrintParamsStep(params);
    }
  }

  lemma PrintParamsStep(params: seq<string>)
    requires |params| > 1 && Word(params[0])
    ensures var text := PrintParams(params);
      text != "" && text[0] == ' ' && |text| > 1 && text[1] == params[0][0] && text[1..] == params[0] + PrintParams(params[1..])
  {
    assert PrintParams(params)[1..] == params[0] + PrintParams(params[1..]);
  }

  lemma LastParamRead(last: string)
    ensures var text := PrintParams([last]);
      text != "" && text[0] == ' ' && (|text| > 1 ==> text[1] != ' ') && Params(text[1..]) == [last]
  {
    if NeedsColon(last) {
      assert PrintParams([last])[1..] == ":" + last;
    } else {
      WordSplits(last, "");
      assert last + "" == last;
      assert PrintParams([last])[1..] == last;
    }
  }

  lemma MiddleParamRead(param: string, tail: string)
    requires Word(param) && param[0] != ':'
    requires tail != "" && tail[0] == ' ' && (|tail| > 1 ==> tail[1] != ' ')
    ensures Params(param + tail) == [param] + Params(tail[1..])
  {
    WordSplits(param, tail);
  }

  lemma {:induction false} TagsRead(less: Order, before: seq<Tag>, tags: seq<Tag>)
    requires Ascending(less, before + tags) && forall i :: 0 <= i < |tags| ==> PlainTag(tags[i])
    ensures AddTags(less, before, TagTokens(tags)) == before + tags
    decreases |tags|
  {
    hide AddTags, AddTag, PlainTag, Ascending, TagToken;
    AddTagsStep(less, before, TagTokens(tags));
    if tags == [] {
      assert before + tags == before;
    } else {
      BeforeNext(less, before, tags);
      TagRead(less, before, tags[0]);
      assert before + tags == (before + [tags[0]]) + tags[1..];
      TagsRead(less, before + [tags[0]], tags[1..]);
      assert TagTokens(tags)[0] == TagToken(tags[0]) && TagTokens(tags)[1..] == TagTokens(tags[1..]);
    }
  }

  lemma BeforeNext(less: Order, before: seq<Tag>, tags: seq<Tag>)
    requires Ascending(less, before + tags) && tags != []
    ensures forall i :: 0 <= i < |before| ==> less(before[i].0, tags[0].0)
  {
    var all := before + tags;
    assert all[|before|] == tags[0] && forall i :: 0 <= i < |before| ==> all[i] == before[i];
  }

  lemma TagRead(less: Order, before: seq<Tag>, tag: Tag)
    requires PlainTag(tag) && forall i :: 0 <= i < |before| ==> less(before[i].0, tag.0)
    ensures AddTag(less, before, TagToken(tag)) == before + [tag]
  {
    PutLast(less, before, tag.0, tag.1);
    var token := TagToken(tag);
    if tag.1 == "" {
      assert token == tag.0;
      assert Find(token, '=', 0).None?;
    } else {
      assert token[|tag.0|] == '=';
      assert forall i :: 0 <= i < |tag.0| ==> token[i] == tag.0[i];
      assert Find(token, '=', 0) == Some(|tag.0|);
      assert token[..|tag.0|] == tag.0 && token[|tag.0| + 1..] == tag.1;
    }
  }

  lemma {:induction false} ValidTagsAscend(less: Order, valid: Validity, tags: seq<Tag>)
    requires Ascending(less, tags)
    ensures Ascending(less, ValidTags(valid, tags))
  {
    if tags != [] {
      ValidTagsAscend(less, valid, tags[1..]);
      forall t | t in ValidTags(valid, tags[1..])
        ensures less(tags[0].0, t.0)
      {
        var k :| 0 <= k < |tags[1..]| && tags[1..][k] == t;
        assert tags[k + 1] == t;
      }
    }
  }

  lemma TokenIsPlain(tag: Tag)
    requires PlainTag(tag)
    ensures TagToken(tag) != "" && ';' !in TagToken(tag) && ' ' !in TagToken(tag)
  {
  }

  lemma TagSection(tags: seq<Tag>)
    requires tags != [] && forall i :: 0 <= i < |tags| ==> PlainTag(tags[i])
    ensures NonEmpty(Split(Join(TagTokens(tags), ';'), ';')) == TagTokens(tags)
    ensures ' ' !in Join(TagTokens(tags), ';')
  {
    hide PlainTag, TagToken, Split, Join, NonEmpty;
    var tokens := TagTokens(tags);
    forall i | 0 <= i < |tokens|
      ensures tokens[i] != "" && ';' !in tokens[i] && ' ' !in tokens[i]
    {
      TokenIsPlain(tags[i]);
    }
    SplitJoin(tokens, ';');
    AllStay(tokens);
    NoSpaceJoined(tokens, ';');
  }

  lemma {:induction false} AllStay(pieces: seq<string>)
    requires forall i :: 0 <= i < |pieces| ==> pieces[i] != ""
    ensures NonEmpty(pieces) == pieces
  {
    if pieces != [] {
      AllStay(pieces[1..]);
    }
  }

  lemma {:induction false} NoSpaceJoined(pieces: seq<string>, sep: char)
    requires sep != ' ' && forall i :: 0 <= i < |pieces| ==> ' ' !in pieces[i]
    ensures ' ' !in Join(pieces, sep)
  {
    if |pieces| > 1 {
      NoSpaceJoined(pieces[1..], sep);
    }
  }

  lemma CommandRead(command: string, params: seq<string>)
    requires Word(command) && PlainParams(params)
    ensures TakeWord(command + PrintParams(params)) == command
    ensures Params(DropWord(command + PrintParams(params))) == params
  {
    if params != [] {
      ParamsRead(params);
    }
    WordSplits(command, PrintParams(params));
  }

  function PrintBody(source: Source, command: string, params: seq<string>): string {
    PrintSource(source) + command + PrintParams(params)
  }

  lemma BodyRead(tags: seq<Tag>, source: Source, command: string, params: seq<string>)
    requires Word(command) && (source.NoSource? ==> command[0] != ':') && ' ' !in source.Id() && PlainParams(params)
    ensures var body := PrintBody(source, command, params);
      && body != "" && body[0] == (if source.NoSource? then command[0] else ':')
      && ParseBody(tags, body) == Some(Line(tags, source.Id(), command, params))
  {
    hide Params, PrintParams, TakeWord, DropWord, PlainParams;
    var rest := command + PrintParams(params);
    CommandRead(command, params);
    if source.NoSource? {
      assert PrintBody(source, command, params) == rest;
    } else {
      SourceRead(source, rest);
      assert PrintBody(source, command, params) == PrintSource(source) + rest;
    }
  }

  lemma SourceRead(source: Source, rest: string)
    requires !source.NoSource? && ' ' !in source.Id() && rest != "" && rest[0] != ' '
    ensures TakeWord(PrintSource(source) + rest) == ":" + source.Id() && DropWord(PrintSource(source) + rest) == rest
    ensures (":" + source.Id())[1..] == source.Id()
  {
    hide TakeWord, DropWord;
    assert PrintSource(source) + rest == (":" + source.Id()) + (" " + rest);
    assert (" " + rest)[1] == rest[0] && (" " + rest)[1..] == rest;
    WordSplits(":" + source.Id(), " " + rest);
  }

  lemma TagsAndBodyRead(less: Order, tags: seq<Tag>, body: string)
    requires Ascending(less, tags) && forall i :: 0 <= i < |tags| ==> PlainTag(tags[i])
    requires body != "" && body[0] != ' ' && (tags == [] ==> body[0] != '@')
    ensures PrintTags(tags) + body != "" && ParseLine(less, PrintTags(tags) + body) == ParseBody(tags, body)
  {
    hide Ascending, PlainTag, ParseBody, TakeWord, DropWord, AddTags, NonEmpty, Split, Join;
    if tags == [] {
      assert PrintTags(tags) + body == body;
      FirstOfWord(body);
    } else {
      var section := Join(TagTokens(tags), ';');
      TagSection(tags);
      assert [] + tags == tags;
      TagsRead(less, [], tags);
      assert PrintTags(tags) + body == ("@" + section) + (" " + body);
      assert (" " + body)[1] == body[0] && (" " + body)[1..] == body;
      WordSplits("@" + section, " " + body);
      assert ("@" + section)[1..] == section;
    }
  }

  /** A printed line parses to the valid tags, the source, the command and the parameters it was printed from. */
  lemma RoundTrip(less: Order, valid: Validity, tags: seq<Tag>, source: Source, command: string, params: seq<string>)
    requires Ascending(less, tags) && forall i :: 0 <= i < |tags| && valid(tags[i].0, tags[i].1) ==> PlainTag(tags[i])
    requires ' ' !in source.Id() && PlainParams(params)
    requires PlainCommand(ValidTags(valid, tags), source, command)
    ensures PrintLine(valid, tags, source, command, params) != ""
    ensures ParseLine(less, PrintLine(valid, tags, source, command, params)) ==
      Some(Line(ValidTags(valid, tags), source.Id(), command, params))
  {
    hide Ascending, PlainTag, PrintTags, PrintBody, ParseBody, ParseLine, PlainParams;
    var kept := ValidTags(valid, tags);
    ValidTagsAscend(less, valid, tags);
    LineIs(valid, tags, source, command, params);
    BodyRead(kept, source, command, params);
    TagsAndBodyRead(less, kept, PrintBody(source, command, params));
  }

  lemma LineIs(valid: Validity, tags: seq<Tag>, source: Source, command: string, params: seq<string>)
    ensures PrintLine(valid, tags, source, command, params) == PrintTags(ValidTags(valid, tags)) + PrintBody(source, command, params)
  {
  }

  lemma FirstOfWord(s: string)
    requires s != ""
    ensures TakeWord(s) == "" <==> s[0] == ' '
    ensures TakeWord(s) != "" ==> TakeWord(s)[0] == s[0]
  {
  }

  // ---------- what parsing refuses ----------

  /** One word, and perhaps spaces behind it. */
  predicate Alone(s: string) {
    exists n :: 0 <= n <= |s| && ' ' !in s[..n] && forall i :: n <= i < |s| ==> s[i] == ' '
  }

  lemma AloneDrops(s: string)
    ensures DropWord(s) == "" <==> Alone(s)
  {
    var p := Find(s, ' ', 0);
    if p.None? {
      assert s[..|s|] == s && ' ' !in s;
    } else {
      var q := FindNot(s, ' ', p.value);
      if q.None? {
        assert ' ' !in s[..p.value];
      } else {
        forall n | p.value < n <= |s|
          ensures ' ' in s[..n]
        {
          assert s[..n][p.value] == ' ';
        }
      }
    }
  }

  /** A line is refused if and only if its tags, or its source, stand alone. */
  lemma ParseFailsExactly(less: Order, buffer: string)
    requires buffer != ""
    ensures ParseLine(less, buffer).None? <==>
      if buffer[0] == '@' then Alone(buffer) || (Begins(DropWord(buffer), ':') && Alone(DropWord(buffer)))
      else buffer[0] == ':' && Alone(buffer)
  {
    hide Alone, AddTags, Params, NonEmpty, Split, DropWord, TakeWord;
    FirstOfWord(buffer);
    AloneDrops(buffer);
    if DropWord(buffer) != "" {
      FirstOfWord(DropWord(buffer));
      AloneDrops(DropWord(buffer));
    }
  }

  // ---------- tags that come twice ----------

  predicate Alike(less: Order, a: string, b: string) {
    !less(a, b) && !less(b, a)
  }

  /** Assignment changes the value at the key, however it is spelled there, and no other. */
  lemma {:induction false} PutThenGet(less: Order, tags: seq<Tag>, key: string, value: string, other: string)
    requires IsOrder(less) && Ascending(less, tags)
    ensures Get(less, Put(less, tags, key, value), other) == if Alike(less, key, other) then value else Get(less, tags, other)
  {
    if tags != [] {
      TailAscends(less, tags);
      if less(tags[0].0, key) {
        PutThenGet(less, tags[1..], key, value, other);
        assert ([tags[0]] + Put(less, tags[1..], key, value))[1..] == Put(less, tags[1..], key, value);
      } else if less(key, tags[0].0) {
        assert ([(key, value)] + tags)[1..] == tags;
      } else {
        assert ([(tags[0].0, value)] + tags[1..])[1..] == tags[1..];
      }
    } else {
      assert [(key, value)][1..] == [];
    }
  }

  /** A key that is there already keeps its place and its spelling. */
  lemma {:induction false} PutThere(less: Order, tags: seq<Tag>, key: string, value: string, i: nat)
    requires IsOrder(less) && Ascending(less, tags) && i < |tags| && Alike(less, tags[i].0, key)
    ensures Put(less, tags, key, value) == tags[i := (tags[i].0, value)]
  {
    if i > 0 {
      TailAscends(less, tags);
      assert less(tags[0].0, tags[i].0) && tags[1..][i - 1] == tags[i];
      PutThere(less, tags[1..], key, value, i - 1);
      assert tags[i := (tags[i].0, value)] == [tags[0]] + tags[1..][i - 1 := (tags[i].0, value)];
    }
  }

  /** A tag with a value replaces the one before it; one without leaves the value as it is. */
  lemma TagGiven(less: Order, tags: seq<Tag>, key: string, value: string, other: string)
    requires IsOrder(less) && Ascending(less, tags) && '=' !in key
    ensures Get(less, AddTag(less, tags, key + "=" + value), other) == if Alike(less, key, other) then value else Get(less, tags, other)
    ensures Get(less, AddTag(less, tags, key), other) == Get(less, tags, other)
  {
    var token := key + "=" + value;
    assert token[|key|] == '=' && forall i :: 0 <= i < |key| ==> token[i] == key[i];
    assert Find(token, '=', 0) == Some(|key|) && token[..|key|] == key && token[|key| + 1..] == value;
    assert Find(key, '=', 0).None?;
    PutThenGet(less, tags, key, value, other);
    PutThenGet(less, tags, key, Get(less, tags, key), other);
    if Alike(less, key, other) {
      SameGet(less, tags, key, other);
    }
  }

  lemma {:induction false} SameGet(less: Order, tags: seq<Tag>, a: string, b: string)
    requires IsOrder(less) && Alike(less, a, b)
    ensures Get(less, tags, a) == Get(less, tags, b)
  {
    if tags != [] {
      SameGet(less, tags[1..], a, b);
    }
  }

  // ---------- what parsing always yields ----------

  /** Whatever the line, the parameters can be printed and read back. */
  lemma {:induction false} ParamsArePlain(rest: string)
    requires rest == "" || rest[0] != ' '
    ensures PlainParams(Params(rest))
    decreases |rest|
  {
    if rest != "" && rest[0] != ':' {
      ParamsArePlain(DropWord(rest));
      FirstOfWord(rest);
      assert ' ' !in TakeWord(rest);
    }
  }

  predicate NoneOf(s: string, bad: string) {
    forall i :: 0 <= i < |s| ==> s[i] !in bad
  }

  /** All that can be wrong with a parsed tag is that it is "=": neither name nor value. */
  predicate ParsedTag(tag: Tag) {
    NoneOf(tag.0, "=; ") && NoneOf(tag.1, "; ")
  }

  lemma {:induction false} PutMembers(less: Order, tags: seq<Tag>, key: string, value: string)
    requires forall i :: 0 <= i < |tags| ==> ParsedTag(tags[i])
    requires NoneOf(key, "=; ") && NoneOf(value, "; ")
    ensures forall i :: 0 <= i < |Put(less, tags, key, value)| ==> ParsedTag(Put(less, tags, key, value)[i])
  {
    hide ParsedTag;
    assert ParsedTag((key, value)) by {
      ParsedPair(key, value);
    }
    if tags != [] {
      PutMembers(less, tags[1..], key, value);
      assert ParsedTag((tags[0].0, value)) by {
        assert tags[0] == (tags[0].0, tags[0].1);
        ParsedPair(tags[0].0, tags[0].1);
        ParsedPair(tags[0].0, value);
      }
    }
  }

  lemma ParsedPair(key: string, value: string)
    ensures NoneOf(key, "=; ") && NoneOf(value, "; ") <==> ParsedTag((key, value))
  {
  }

  lemma {:induction false} GetParsed(less: Order, tags: seq<Tag>, key: string)
    requires forall i :: 0 <= i < |tags| ==> ParsedTag(tags[i])
    ensures NoneOf(Get(less, tags, key), "; ")
  {
    if tags != [] {
      assert ParsedTag(tags[0]);
      GetParsed(less, tags[1..], key);
    }
  }

  lemma TokenParsed(less: Order, tags: seq<Tag>, token: string)
    requires IsOrder(less) && Ascending(less, tags) && forall i :: 0 <= i < |tags| ==> ParsedTag(tags[i])
    requires NoneOf(token, "; ")
    ensures Ascending(less, AddTag(less, tags, token))
    ensures forall i :: 0 <= i < |AddTag(less, tags, token)| ==> ParsedTag(AddTag(less, tags, token)[i])
  {
    hide IsOrder, Ascending, ParsedTag, Put, Get;
    var valsep := Find(token, '=', 0);
    var key := if valsep.None? then token else token[..valsep.value];
    var value := if valsep.None? then Get(less, tags, key) else token[valsep.value + 1..];
    GetParsed(less, tags, key);
    forall i | 0 <= i < |key|
      ensures key[i] !in "=; "
    {
      assert key[i] == token[i] && key[i] != '=';
    }
    if valsep.Some? {
      assert forall i :: 0 <= i < |value| ==> value[i] == token[valsep.value + 1 + i];
    }
    PutKeepsOrder(less, tags, key, value);
    PutMembers(less, tags, key, value);
  }

  lemma {:induction false} TagsParsed(less: Order, tags: seq<Tag>, tokens: seq<string>)
    requires IsOrder(less) && Ascending(less, tags) && forall i :: 0 <= i < |tags| ==> ParsedTag(tags[i])
    requires forall i :: 0 <= i < |tokens| ==> NoneOf(tokens[i], "; ")
    ensures Ascending(less, AddTags(less, tags, tokens))
    ensures forall i :: 0 <= i < |AddTags(less, tags, tokens)| ==> ParsedTag(AddTags(less, tags, tokens)[i])
    decreases |tokens|
  {
    if tokens != [] {
      hide IsOrder, Ascending, ParsedTag, AddTag;
      TokenParsed(less, tags, tokens[0]);
      TagsParsed(less, AddTag(less, tags, tokens[0]), tokens[1..]);
    }
  }

  lemma SectionParsed(less: Order, section: string)
    requires IsOrder(less) && ' ' !in section
    ensures var tags := AddTags(less, [], NonEmpty(Split(section, ';')));
      Ascending(less, tags) && forall i :: 0 <= i < |tags| ==> ParsedTag(tags[i])
  {
    hide AddTags, ParsedTag, IsOrder;
    var tokens := NonEmpty(Split(section, ';'));
    forall i | 0 <= i < |tokens|
      ensures NoneOf(tokens[i], "; ")
    {
      PieceWithin(section, ';', ' ', tokens[i]);
    }
    TagsParsed(less, [], tokens);
  }

  lemma {:induction false} PieceWithin(s: string, sep: char, c: char, piece: string)
    requires c !in s && piece in Split(s, sep)
    ensures c !in piece && sep !in piece
    decreases |s|
  {
    var p := Find(s, sep, 0);
    if p.Some? && piece != s[..p.value] {
      PieceWithin(s[p.value + 1..], sep, c, piece);
    }
  }

  /** What holds of every parsed line. */
  predicate WellFormed(line: Line) {
    && (forall i :: 0 <= i < |line.tags| ==> ParsedTag(line.tags[i]))
    && ' ' !in line.source
    && ' ' !in line.command
    && PlainParams(line.params)
  }

  lemma ParsedIsWellFormed(less: Order, buffer: string)
    requires IsOrder(less) && buffer != "" && ParseLine(less, buffer).Some?
    ensures WellFormed(ParseLine(less, buffer).value) && Ascending(less, ParseLine(less, buffer).value.tags)
  {
    hide AddTags, ParsedTag, PlainParams, IsOrder, Split, NonEmpty;
    var first, after := TakeWord(buffer), DropWord(buffer);
    assert ' ' !in first;
    if Begins(first, '@') {
      SectionParsed(less, first[1..]);
      BodyParsed(AddTags(less, [], NonEmpty(Split(first[1..], ';'))), after);
    } else {
      BodyParsed([], buffer);
    }
  }

  lemma BodyParsed(tags: seq<Tag>, rest: string)
    requires rest != "" && ParseBody(tags, rest).Some?
    ensures var line := ParseBody(tags, rest).value;
      line.tags == tags && ' ' !in line.source && ' ' !in line.command && PlainParams(line.params)
  {
    hide Params, PlainParams;
    var first, after := TakeWord(rest), DropWord(rest);
    assert ' ' !in first && ' ' !in TakeWord(after);
    ParamsArePlain(after);
    ParamsArePlain(DropWord(after));
  }

  /** A line parsed from anywhere and printed again under its source reads the same, but for tags that are not valid. */
  lemma Relayed(less: Order, valid: Validity, buffer: string, source: Source)
    requires IsOrder(less) && !valid("", "") && buffer != "" && ParseLine(less, buffer).Some?
    requires source.Id() == ParseLine(less, buffer).value.source
    requires PlainCommand(ValidTags(valid, ParseLine(less, buffer).value.tags), source, ParseLine(less, buffer).value.command)
    ensures var line := ParseLine(less, buffer).value;
      var again := PrintLine(valid, line.tags, source, line.command, line.params);
      again != "" && ParseLine(less, again) == Some(line.(tags := ValidTags(valid, line.tags)))
  {
    hide ParseLine, PrintLine, IsOrder, Ascending;
    var line := ParseLine(less, buffer).value;
    ParsedIsWellFormed(less, buffer);
    forall i | 0 <= i < |line.tags| && valid(line.tags[i].0, line.tags[i].1)
      ensures PlainTag(line.tags[i])
    {
      assert ParsedTag(line.tags[i]);
    }
    RoundTrip(less, valid, line.tags, source, line.command, line.params);
  }

  // ---------- exactly when a line survives ----------

  /** Tags, source, command and parameters that mean on the wire what they are. */
  predicate Printable(valid: Validity, tags: seq<Tag>, source: Source, command: string, params: seq<string>) {
    && (forall i :: 0 <= i < |tags| && valid(tags[i].0, tags[i].1) ==> PlainTag(tags[i]))
    && ' ' !in source.Id()
    && PlainParams(params)
    && PlainCommand(ValidTags(valid, tags), source, command)
  }

  /** Parameters printed again need no more room than they had. */
  lemma {:induction false} ParamsAreShort(rest: string)
    requires rest == "" || rest[0] != ' '
    ensures |PrintParams(Params(rest))| <= if rest == "" then 0 else |rest| + 1
    decreases |rest|
  {
    if rest != "" && rest[0] != ':' {
      var w, r := TakeWord(rest), DropWord(rest);
      WordTaken(rest);
      ParamsAreShort(r);
      FirstOfWord(rest);
      assert Params(rest) == [w] + Params(r);
      if r == "" {
        assert Params(rest) == [w];
      } else {
        assert ([w] + Params(r))[1..] == Params(r);
      }
    }
  }

  lemma WordTaken(rest: string)
    requires rest != ""
    ensures ' ' !in TakeWord(rest) && |TakeWord(rest)| + |DropWord(rest)| <= |rest|
    ensures DropWord(rest) != "" ==> |TakeWord(rest)| + |DropWord(rest)| < |rest|
  {
  }

  /** So does the whole of what follows the source, and a source that was read leaves it even less. */
  lemma BodyIsShort(tags: seq<Tag>, rest: string)
    requires rest != "" && ParseBody(tags, rest).Some?
    ensures var line := ParseBody(tags, rest).value;
      && |line.command + PrintParams(line.params)| <= |rest|
      && (Begins(TakeWord(rest), ':') ==> |line.command + PrintParams(line.params)| < |rest|)
  {
    hide Params, PrintParams, TakeWord, DropWord;
    var after := DropWord(rest);
    WordTaken(rest);
    if Begins(TakeWord(rest), ':') {
      WordTaken(after);
      ParamsAreShort(DropWord(after));
    } else {
      ParamsAreShort(after);
    }
  }

  lemma {:induction false} FewTags(less: Order, tags: seq<Tag>, tokens: seq<string>)
    ensures |AddTags(less, tags, tokens)| <= |tags| + |tokens|
    decreases |tokens|
  {
    if tokens != [] {
      var valsep := Find(tokens[0], '=', 0);
      PutGrows(less, tags, if valsep.None? then tokens[0] else tokens[0][..valsep.value],
        if valsep.None? then Get(less, tags, tokens[0]) else tokens[0][valsep.value + 1..]);
      FewTags(less, AddTag(less, tags, tokens[0]), tokens[1..]);
    }
  }

  lemma {:induction false} PutGrows(less: Order, tags: seq<Tag>, key: string, value: string)
    ensures |Put(less, tags, key, value)| <= |tags| + 1
  {
    if tags != [] {
      PutGrows(less, tags[1..], key, value);
    }
  }

  lemma {:induction false} EmptyIsDropped(pieces: seq<string>)
    ensures |NonEmpty(pieces)| <= |pieces|
    ensures "" in pieces ==> |NonEmpty(pieces)| < |pieces|
  {
    if pieces != [] {
      EmptyIsDropped(pieces[1..]);
    }
  }

  /** A tag with neither name nor value is lost on the way. */
  lemma EmptyTagIsLost(less: Order, tags: seq<Tag>, body: string)
    requires ("", "") in tags && forall i :: 0 <= i < |tags| ==> ParsedTag(tags[i])
    ensures PrintTags(tags) + body != ""
    ensures ParseLine(less, PrintTags(tags) + body).Some? ==> |ParseLine(less, PrintTags(tags) + body).value.tags| < |tags|
  {
    hide ParsedTag, TagToken, TagTokens, Split, Join, NonEmpty, AddTags, TakeWord, DropWord, ParseBody;
    var section := Join(TagTokens(tags), ';');
    EmptyTagSection(less, tags);
    assert PrintTags(tags) + body == ("@" + section) + (" " + body);
    FirstWord("@" + section, body);
    assert ("@" + section)[1..] == section;
    var after, read := DropWord(PrintTags(tags) + body), AddTags(less, [], NonEmpty(Split(section, ';')));
    if after != "" && ParseBody(read, after).Some? {
      BodyParsed(read, after);
    }
  }

  lemma EmptyTagSection(less: Order, tags: seq<Tag>)
    requires ("", "") in tags && forall i :: 0 <= i < |tags| ==> ParsedTag(tags[i])
    ensures var section := Join(TagTokens(tags), ';');
      ' ' !in section && |AddTags(less, [], NonEmpty(Split(section, ';')))| < |tags|
  {
    var tokens := TagTokens(tags);
    forall i | 0 <= i < |tokens|
      ensures ';' !in tokens[i] && ' ' !in tokens[i]
    {
      ParsedToken(tags[i]);
    }
    var k :| 0 <= k < |tags| && tags[k] == ("", "");
    assert tokens[k] == "";
    hide *;
    SplitJoin(tokens, ';');
    EmptyIsDropped(tokens);
    NoSpaceJoined(tokens, ';');
    FewTags(less, [], NonEmpty(tokens));
  }

  lemma ParsedToken(tag: Tag)
    requires ParsedTag(tag)
    ensures ';' !in TagToken(tag) && ' ' !in TagToken(tag)
  {
  }

  lemma FirstWord(w: string, rest: string)
    requires ' ' !in w
    ensures TakeWord(w + (" " + rest)) == w
  {
    WordSplits(w, " " + rest);
  }

  /** Without tags and source, a command that looks like one of those is taken for it. */
  lemma CommandIsTaken(less: Order, tags: seq<Tag>, command: string, params: seq<string>)
    requires Ascending(less, tags) && (forall i :: 0 <= i < |tags| ==> PlainTag(tags[i])) && command != ""
    requires command[0] == ':' || (tags == [] && command[0] == '@')
    ensures var text := PrintTags(tags) + (command + PrintParams(params));
      text != "" && ParseLine(less, text) != Some(Line(tags, "", command, params))
  {
    hide Ascending, PlainTag, ParseBody, Params, PrintParams, TakeWord, DropWord, AddTags, NonEmpty, Split, Join;
    var body := command + PrintParams(params);
    FirstOfWord(body);
    if command[0] == ':' {
      TagsAndBodyRead(less, tags, body);
      if ParseBody(tags, body).Some? {
        BodyIsShort(tags, body);
      }
    } else {
      assert PrintTags(tags) + body == body;
      WordTaken(body);
      var read := AddTags(less, [], NonEmpty(Split(TakeWord(body)[1..], ';')));
      if DropWord(body) != "" && ParseBody(read, DropWord(body)).Some? {
        BodyIsShort(read, DropWord(body));
      }
    }
  }

  /** A line with a command survives printing and parsing if and only if it is printable. */
  lemma RoundTripExactly(less: Order, valid: Validity, tags: seq<Tag>, source: Source, command: string, params: seq<string>)
    requires IsOrder(less) && Ascending(less, tags) && command != ""
    ensures PrintLine(valid, tags, source, command, params) != ""
    ensures ParseLine(less, PrintLine(valid, tags, source, command, params)) == Some(Line(ValidTags(valid, tags), source.Id(), command, params))
      <==> Printable(valid, tags, source, command, params)
  {
    var kept, text := ValidTags(valid, tags), PrintLine(valid, tags, source, command, params);
    var line := Line(kept, source.Id(), command, params);
    hide IsOrder, Ascending, PlainTag, ParseLine, PrintTags, PrintParams;
    if Printable(valid, tags, source, command, params) {
      RoundTrip(less, valid, tags, source, command, params);
    } else if ParseLine(less, text) == Some(line) {
      ParsedIsWellFormed(less, text);
      ValidTagsAscend(less, valid, tags);
      LineIs(valid, tags, source, command, params);
      if ("", "") in kept {
        EmptyTagIsLost(less, kept, PrintBody(source, command, params));
      } else {
        KeptIsPlain(valid, tags);
        TakenCommand(valid, tags, source, command, params);
        CommandIsTaken(less, kept, command, params);
      }
    }
  }

  /** What is left to go wrong when the tags are plain and the line is well formed. */
  lemma TakenCommand(valid: Validity, tags: seq<Tag>, source: Source, command: string, params: seq<string>)
    requires command != "" && !Printable(valid, tags, source, command, params)
    requires WellFormed(Line(ValidTags(valid, tags), source.Id(), command, params))
    requires forall i :: 0 <= i < |tags| && valid(tags[i].0, tags[i].1) ==> PlainTag(tags[i])
    ensures command[0] == ':' || (ValidTags(valid, tags) == [] && command[0] == '@')
    ensures PrintBody(source, command, params) == command + PrintParams(params)
  {
    hide PlainTag, ParsedTag, PlainParams, PrintParams, ValidTags, PrintBody;
    assert source.NoSource?;
    NoSourceIsPrinted(command, params);
  }

  lemma NoSourceIsPrinted(command: string, params: seq<string>)
    ensures PrintBody(NoSource, command, params) == command + PrintParams(params)
  {
    hide PrintParams;
    assert "" + command == command;
  }

  lemma KeptIsPlain(valid: Validity, tags: seq<Tag>)
    requires ("", "") !in ValidTags(valid, tags) && forall i :: 0 <= i < |ValidTags(valid, tags)| ==> ParsedTag(ValidTags(valid, tags)[i])
    ensures forall i :: 0 <= i < |ValidTags(valid, tags)| ==> PlainTag(ValidTags(valid, tags)[i])
    ensures forall i :: 0 <= i < |tags| && valid(tags[i].0, tags[i].1) ==> PlainTag(tags[i])
  {
    var kept := ValidTags(valid, tags);
    forall i | 0 <= i < |kept|
      ensures PlainTag(kept[i])
    {
      assert ParsedTag(kept[i]) && kept[i] in kept;
    }
    forall i | 0 <= i < |tags| && valid(tags[i].0, tags[i].1)
      ensures PlainTag(tags[i])
    {
      ValidIsKept(valid, tags, i);
    }
  }

  lemma {:induction false} ValidIsKept(valid: Validity, tags: seq<Tag>, i: nat)
    requires i < |tags| && valid(tags[i].0, tags[i].1)
    ensures tags[i] in ValidTags(valid, tags)
  {
    if i > 0 {
      ValidIsKept(valid, tags[1..], i - 1);
    }
  }

  // ---------- the order of the tag map ----------

  /** ci::less: upper is the case map; two terminators end the comparison of characters. */
  function CiLess(upper: char -> int, a: string, b: string): bool {
    if a == "" || b == "" then |a| < |b|
    else if upper(a[0]) != upper(b[0]) then upper(a[0]) < upper(b[0])
    else if upper(a[0]) == 0 then |a| < |b|
    else CiLess(upper, a[1..], b[1..])
  }

  lemma {:induction false} CiLessIrreflexive(upper: char -> int, a: string)
    ensures !CiLess(upper, a, a)
  {
    if a != "" {
      CiLessIrreflexive(upper, a[1..]);
    }
  }

  lemma {:induction false} CiLessTransitive(upper: char -> int, a: string, b: string, c: string)
    ensures CiLess(upper, a, b) && CiLess(upper, b, c) ==> CiLess(upper, a, c)
    ensures CiLess(upper, a, b) ==> CiLess(upper, a, c) || CiLess(upper, c, b)
  {
    if a != "" && b != "" && c != "" {
      CiLessTransitive(upper, a[1..], b[1..], c[1..]);
    }
  }

  /** Strings without terminators are the same key if and only if they differ in case only. */
  lemma {:induction false} CiAlike(upper: char -> int, a: string, b: string)
    requires forall c: char :: c in a || c in b ==> upper(c) != 0
    ensures !CiLess(upper, a, b) && !CiLess(upper, b, a) <==> |a| == |b| && forall i :: 0 <= i < |a| ==> upper(a[i]) == upper(b[i])
    decreases |a|
  {
    if a != "" && b != "" {
      CiAlike(upper, a[1..], b[1..]);
      assert a == [a[0]] + a[1..] && b == [b[0]] + b[1..];
    }
  }

  /** Behind terminators in the same place of both, only the lengths count. */
  lemma {:induction false} CiTerminated(upper: char -> int, a: string, b: string, k: nat)
    requires k < |a| && k < |b| && upper(a[k]) == upper(b[k]) == 0
    requires forall i :: 0 <= i < k ==> upper(a[i]) == upper(b[i])
    ensures CiLess(upper, a, b) <==> |a| < |b|
    decreases k
  {
    if k > 0 && upper(a[0]) != 0 {
      CiTerminated(upper, a[1..], b[1..], k - 1);
    }
  }

  lemma CiLessIsOrder(upper: char -> int)
    ensures IsOrder((a: string, b: string) => CiLess(upper, a, b))
  {
    var less := (a: string, b: string) => CiLess(upper, a, b);
    forall a: string, b: string, c: string
      ensures !less(a, a)
      ensures less(a, b) && less(b, c) ==> less(a, c)
      ensures less(a, b) ==> less(a, c) || less(c, b)
    {
      CiLessIrreflexive(upper, a);
      CiLessTransitive(upper, a, b, c);
    }
  }
}
