/** MODE lines: BuildModeChange of src/protocol.cpp and the reading loop of Channel::SetModesInternal. */
module ModeLines {
  import opened Wrappers
  import opened Modes

  datatype Line = Line(modes: string, params: seq<string>)

  type Table = map<char, Mode>

  /** The modes known by their characters. */
  ghost predicate IsTable(table: Table) {
    (forall c :: c in table ==> table[c].mchar == c) && '+' !in table && '-' !in table
  }

  /** A change that has a value exactly when its mode takes one. */
  predicate WellFormed(c: Change) {
    match c.mode.kind
    case Regular => c.value == ""
    case Param(minusNoArg) => if c.add then c.value != "" else c.value == "" <==> minusNoArg
    case _ => c.value != ""
  }

  ghost predicate Sendable(table: Table, cs: seq<Change>) {
    forall i :: 0 <= i < |cs| ==> WellFormed(cs[i]) && cs[i].mode.mchar in table && table[cs[i].mode.mchar] == cs[i].mode
  }

  // ---------- reading ----------

  /** The changes that a line stands for; unknown characters, and those that want a parameter after the last, are skipped. */
  function Decode(table: Table, modes: string, params: seq<string>, sign: Option<bool>): seq<Change> {
    if modes == "" then []
    else
      var rest := modes[1..];
      if modes[0] == '+' then Decode(table, rest, params, Some(true))
      else if modes[0] == '-' then Decode(table, rest, params, Some(false))
      else if sign.None? || modes[0] !in table then Decode(table, rest, params, sign)
      else
        var cm, add := table[modes[0]], sign.value;
        if cm.kind.Regular? || (cm.kind.Param? && !add && cm.kind.minusNoArg) then
          [Change(cm, add, "")] + Decode(table, rest, params, sign)
        else if params != [] then [Change(cm, add, params[0])] + Decode(table, rest, params[1..], sign)
        else Decode(table, rest, params, sign)
  }

  function Read(table: Table, line: Line): seq<Change> {
    Decode(table, line.modes, line.params, None)
  }

  function ReadAll(table: Table, lines: seq<Line>): seq<Change> {
    if lines == [] then [] else Read(table, lines[0]) + ReadAll(table, lines[1..])
  }

  // ---------- writing ----------

  function Sign(add: bool): char {
    if add then '+' else '-'
  }

  /** What one change puts into the mode string, after changes that ended in a sign. */
  function Piece(c: Change, sign: Option<bool>): string {
    (if sign == Some(c.add) then "" else [Sign(c.add)]) + [c.mode.mchar]
  }

  function ModeString(cs: seq<Change>, sign: Option<bool>): string {
    if cs == [] then "" else Piece(cs[0], sign) + ModeString(cs[1..], Some(cs[0].add))
  }

  function Values(cs: seq<Change>): seq<string> {
    if cs == [] then [] else (if cs[0].value == "" then [] else [cs[0].value]) + Values(cs[1..])
  }

  /** The line that carries these changes. */
  function LineOf(cs: seq<Change>): Line {
    Line(ModeString(cs, None), Values(cs))
  }

  function LastSign(cs: seq<Change>, sign: Option<bool>): Option<bool> {
    if cs == [] then sign else Some(cs[|cs| - 1].add)
  }

  lemma {:induction false} DecodeOfModeString(table: Table, cs: seq<Change>, sign: Option<bool>)
    requires IsTable(table) && Sendable(table, cs)
    ensures Decode(table, ModeString(cs, sign), Values(cs), sign) == cs
  {
    if cs != [] {
      var c, rest := cs[0], cs[1..];
      assert Sendable(table, rest) && cs == [c] + rest;
      DecodeOfModeString(table, rest, Some(c.add));
      DecodePiece(table, c, sign, ModeString(rest, Some(c.add)), Values(rest));
    }
  }

  lemma DecodePiece(table: Table, c: Change, sign: Option<bool>, modes: string, params: seq<string>)
    requires IsTable(table) && Sendable(table, [c])
    ensures Decode(table, Piece(c, sign) + modes, (if c.value == "" then [] else [c.value]) + params, sign)
      == [c] + Decode(table, modes, params, Some(c.add))
  {
    var all := (if c.value == "" then [] else [c.value]) + params;
    assert [c][0] == c;
    DecodeChar(table, c, modes, params);
    if sign == Some(c.add) {
      assert Piece(c, sign) + modes == [c.mode.mchar] + modes;
    } else {
      var s := Piece(c, sign) + modes;
      assert s[0] == Sign(c.add) && s[1..] == [c.mode.mchar] + modes;
    }
  }

  lemma DecodeChar(table: Table, c: Change, modes: string, params: seq<string>)
    requires IsTable(table) && Sendable(table, [c])
    ensures Decode(table, [c.mode.mchar] + modes, (if c.value == "" then [] else [c.value]) + params, Some(c.add))
      == [c] + Decode(table, modes, params, Some(c.add))
  {
    assert [c][0] == c;
    var s := [c.mode.mchar] + modes;
    assert s[0] == c.mode.mchar && s[1..] == modes;
    if c.value == "" {
      assert [] + params == params;
    } else {
      assert ([c.value] + params)[0] == c.value && ([c.value] + params)[1..] == params;
    }
  }

  lemma {:induction false} ModeStringGrows(cs: seq<Change>, c: Change, sign: Option<bool>)
    ensures ModeString(cs + [c], sign) == ModeString(cs, sign) + Piece(c, LastSign(cs, sign))
    ensures ModeString(cs, sign) == "" <==> cs == []
  {
    hide ModeString, Values, Piece;
    var all := cs + [c];
    StringsGrow(all, sign);
    if cs == [] {
      assert all == [c] && all[1..] == [];
      NoStrings(sign);
      NoStrings(Some(c.add));
      assert Piece(c, sign) + "" == Piece(c, sign) == "" + Piece(c, sign);
    } else {
      var rest := cs[1..];
      assert all[0] == cs[0] && all[1..] == rest + [c];
      ModeStringGrows(rest, c, Some(cs[0].add));
      assert LastSign(rest, Some(cs[0].add)) == LastSign(cs, sign);
      StringsGrow(cs, sign);
    }
  }

  lemma {:induction false} ValuesGrow(cs: seq<Change>, c: Change)
    ensures Values(cs + [c]) == Values(cs) + if c.value == "" then [] else [c.value]
  {
    hide Values, ModeString, Piece;
    var all := cs + [c];
    StringsGrow(all, None);
    if cs == [] {
      assert all == [c] && all[1..] == [];
      NoStrings(None);
    } else {
      assert all[0] == cs[0] && all[1..] == cs[1..] + [c];
      ValuesGrow(cs[1..], c);
      StringsGrow(cs, None);
    }
  }

  lemma NoStrings(sign: Option<bool>)
    ensures ModeString([], sign) == "" && Values([]) == []
  {
  }

  lemma StringsGrow(cs: seq<Change>, sign: Option<bool>)
    requires cs != []
    ensures ModeString(cs, sign) == Piece(cs[0], sign) + ModeString(cs[1..], Some(cs[0].add))
    ensures Values(cs) == (if cs[0].value == "" then [] else [cs[0].value]) + Values(cs[1..])
    ensures ModeString(cs, sign) != ""
  {
  }

  // ---------- batching ----------

  function Flatten(groups: seq<seq<Change>>): seq<Change> {
    if groups == [] then [] else Flatten(groups[..|groups| - 1]) + groups[|groups| - 1]
  }

  function ParamLength(params: seq<string>): nat {
    if params == [] then 0 else ParamLength(params[..|params| - 1]) + |params[|params| - 1]| + 1
  }

  /** The length that is held against the limit. */
  function Length(line: Line): nat {
    |line.modes| + ParamLength(line.params)
  }

  const SIZE_MAX: int := 0xFFFF_FFFF_FFFF_FFFF

  /** MaxLine - 100 in unsigned arithmetic. */
  function Limit(maxLine: nat): int {
    (maxLine - 100) % (SIZE_MAX + 1)
  }

  /** A group within the limits when it is sent, or as far as it has come. */
  ghost predicate Small(maxLine: nat, maxModes: nat, first: bool, group: seq<Change>) {
    && group != []
    && (maxLine > 0 ==> Length(LineOf(group[..|group| - 1])) <= Limit(maxLine))
    && (maxModes > 0 ==> |group| <= Allowed(maxModes, first))
  }

  /** How many changes a line may carry: the count starts again at 0 with the first change of a later line unpaid. */
  function Allowed(maxModes: nat, first: bool): nat {
    if first then maxModes else maxModes + 1
  }

  /** A group that no further change may join. */
  ghost predicate Full(maxLine: nat, maxModes: nat, first: bool, group: seq<Change>) {
    || (maxModes > 0 && |group| == Allowed(maxModes, first))
    || (maxLine > 0 && Length(LineOf(group)) > Limit(maxLine))
  }

  /** The lines carry these groups, all of them small and all but the last one full. */
  ghost predicate Batches(maxLine: nat, maxModes: nat, groups: seq<seq<Change>>, lines: seq<Line>) {
    && |lines| == |groups|
    && (forall k :: 0 <= k < |groups| ==> lines[k] == LineOf(groups[k]) && Small(maxLine, maxModes, k == 0, groups[k]))
    && (forall k :: 0 <= k < |groups| - 1 ==> Full(maxLine, maxModes, k == 0, groups[k]))
  }

  ghost predicate LastFull(maxLine: nat, maxModes: nat, groups: seq<seq<Change>>) {
    groups != [] ==> Full(maxLine, maxModes, |groups| == 1, groups[|groups| - 1])
  }

  /** The line being built carries this group, within the limits, after these groups. */
  ghost predicate Building(maxLine: nat, maxModes: nat, groups: seq<seq<Change>>, group: seq<Change>, modecount: nat) {
    && (group == [] ==> groups == [] && modecount == 0)
    && (group != [] ==> Small(maxLine, maxModes, groups == [], group))
    && (maxModes > 0 && group != [] ==> modecount == if groups == [] then |group| else |group| - 1)
  }

  lemma GroupGrows(maxLine: nat, maxModes: nat, groups: seq<seq<Change>>, group: seq<Change>, modecount: nat, c: Change)
    requires Building(maxLine, maxModes, groups, group, modecount)
    requires maxLine > 0 ==> Length(LineOf(group)) <= Limit(maxLine)
    requires maxModes > 0 ==> modecount + 1 <= maxModes
    ensures Building(maxLine, maxModes, groups, group + [c], if maxModes > 0 then modecount + 1 else modecount)
  {
    hide LineOf, Length, Limit;
    assert (group + [c])[..|group + [c]| - 1] == group;
  }

  lemma GroupStarts(maxLine: nat, maxModes: nat, groups: seq<seq<Change>>, c: Change)
    requires groups != []
    ensures Building(maxLine, maxModes, groups, [c], 0)
  {
    assert [c][..0] == [];
  }

  lemma BatchCloses(maxLine: nat, maxModes: nat, groups: seq<seq<Change>>, lines: seq<Line>, group: seq<Change>)
    requires Batches(maxLine, maxModes, groups, lines) && LastFull(maxLine, maxModes, groups)
    requires Small(maxLine, maxModes, groups == [], group)
    ensures Batches(maxLine, maxModes, groups + [group], lines + [LineOf(group)])
    ensures Full(maxLine, maxModes, groups == [], group) ==> LastFull(maxLine, maxModes, groups + [group])
    ensures Flatten(groups + [group]) == Flatten(groups) + group
  {
    hide LineOf, Small, Full;
    assert (groups + [group])[..|groups|] == groups;
  }

  /** Puts one change at the end of the buffers. */
  method Push(buf: Line, paramlen: nat, adding: bool, c: Change, ghost group: seq<Change>)
    returns (buf': Line, paramlen': nat, adding': bool)
    requires buf == LineOf(group) && paramlen == ParamLength(buf.params) && (group != [] ==> adding == group[|group| - 1].add)
    ensures buf' == LineOf(group + [c]) && paramlen' == ParamLength(buf'.params) && adding' == c.add
  {
    hide ModeString, Values, ParamLength, Sign;
    LineGrows(group, c);
    buf', paramlen', adding' := buf, paramlen, adding;
    if buf'.modes == "" || adding' != c.add {
      adding' := c.add;
      buf' := buf'.(modes := buf'.modes + [Sign(adding')]);
    }
    buf' := buf'.(modes := buf'.modes + [c.mode.mchar]);
    if c.value != "" {
      buf' := buf'.(params := buf'.params + [c.value]);
      paramlen' := paramlen' + |c.value| + 1;
      ParamLengthGrows(buf.params, c.value);
    }
  }

  lemma ParamLengthGrows(params: seq<string>, value: string)
    ensures ParamLength(params + [value]) == ParamLength(params) + |value| + 1
  {
    assert (params + [value])[..|params|] == params;
  }

  lemma LineGrows(group: seq<Change>, c: Change)
    ensures LineOf(group).modes == "" <==> group == []
    ensures LineOf(group + [c]).modes ==
      (if group == [] || group[|group| - 1].add != c.add then LineOf(group).modes + [Sign(c.add)] else LineOf(group).modes) + [c.mode.mchar]
    ensures LineOf(group + [c]).params == if c.value == "" then LineOf(group).params else LineOf(group).params + [c.value]
  {
    hide ModeString, Values, Sign;
    ModeStringGrows(group, c, None);
    ValuesGrow(group, c);
    var modes := ModeString(group, None);
    if group == [] || group[|group| - 1].add != c.add {
      assert modes + ([Sign(c.add)] + [c.mode.mchar]) == modes + [Sign(c.add)] + [c.mode.mchar];
    } else {
      assert modes + ("" + [c.mode.mchar]) == modes + [c.mode.mchar];
    }
  }

  /** BuildModeChange; groups shows which changes went into which line. */
  method BuildModeChange(maxLine: nat, maxModes: nat, change: seq<Change>) returns (lines: seq<Line>, ghost groups: seq<seq<Change>>)
    ensures Batches(maxLine, maxModes, groups, lines) && Flatten(groups) == change
  {
    hide Building, Batches, LastFull, Full, Flatten;
    lines, groups := [], [];
    var buf := Line("", []);
    var modecount: nat, paramlen: nat := 0, 0;
    ghost var group: seq<Change> := [];
    var adding := true;
    NothingBuilt(maxLine, maxModes);
    for i := 0 to |change|
      invariant Batches(maxLine, maxModes, groups, lines) && LastFull(maxLine, maxModes, groups)
      invariant Building(maxLine, maxModes, groups, group, modecount)
      invariant Flatten(groups) + group == change[..i]
      invariant buf == LineOf(group) && paramlen == ParamLength(buf.params)
      invariant group != [] ==> adding == group[|group| - 1].add
    {
      var reachedMaxLine := maxLine > 0 && |buf.modes| + paramlen > Limit(maxLine);
      ghost var counted := modecount;
      if maxModes > 0 {
        modecount := modecount + 1;
      }
      var reachedMaxModes := maxModes > 0 && modecount > maxModes;
      assert change[..i + 1] == change[..i] + [change[i]];
      if reachedMaxModes || reachedMaxLine {
        Reached(maxLine, maxModes, groups, group, counted);
        BatchCloses(maxLine, maxModes, groups, lines, group);
        lines := lines + [buf];
        groups := groups + [group];
        group := [];
        assert Flatten(groups) + group == Flatten(groups);
        buf := Line("", []);
        modecount, paramlen := 0, 0;
        assert [] + [change[i]] == [change[i]];
        GroupStarts(maxLine, maxModes, groups, change[i]);
      } else {
        GroupGrows(maxLine, maxModes, groups, group, counted, change[i]);
      }
      buf, paramlen, adding := Push(buf, paramlen, adding, change[i], group);
      assert Flatten(groups) + (group + [change[i]]) == (Flatten(groups) + group) + [change[i]];
      group := group + [change[i]];
    }
    assert change[..|change|] == change;
    ModeStringEmpty(group);
    if buf.modes != "" {
      Reached(maxLine, maxModes, groups, group, modecount);
      BatchCloses(maxLine, maxModes, groups, lines, group);
      lines := lines + [buf];
      groups := groups + [group];
    }
  }

  lemma NothingBuilt(maxLine: nat, maxModes: nat)
    ensures Batches(maxLine, maxModes, [], []) && LastFull(maxLine, maxModes, []) && Building(maxLine, maxModes, [], [], 0) && Flatten([]) == []
  {
  }

  lemma ModeStringEmpty(group: seq<Change>)
    ensures LineOf(group).modes == "" <==> group == []
  {
  }

  /** A limit is reached only when there is something to send. */
  lemma Reached(maxLine: nat, maxModes: nat, groups: seq<seq<Change>>, group: seq<Change>, modecount: nat)
    requires Building(maxLine, maxModes, groups, group, modecount)
    requires || group != []
             || (maxLine > 0 && Length(LineOf(group)) > Limit(maxLine))
             || (maxModes > 0 && modecount + 1 > maxModes)
    ensures group != [] && Small(maxLine, maxModes, groups == [], group)
    ensures (maxLine > 0 && Length(LineOf(group)) > Limit(maxLine)) || (maxModes > 0 && modecount + 1 > maxModes)
      ==> Full(maxLine, maxModes, groups == [], group)
  {
  }

  lemma {:induction false} ReadAllGrows(table: Table, lines: seq<Line>, line: Line)
    ensures ReadAll(table, lines + [line]) == ReadAll(table, lines) + Read(table, line)
  {
    hide Read;
    var all := lines + [line];
    if lines == [] {
      assert all == [line] && all[1..] == [];
    } else {
      assert all[0] == lines[0] && all[1..] == lines[1..] + [line];
      ReadAllGrows(table, lines[1..], line);
    }
  }

  /** Read on its own, each line gives back its group; read in order, the lines give back the changes. */
  lemma LinesReadBack(table: Table, maxLine: nat, maxModes: nat, groups: seq<seq<Change>>, lines: seq<Line>)
    requires IsTable(table) && Batches(maxLine, maxModes, groups, lines) && Sendable(table, Flatten(groups))
    ensures forall k :: 0 <= k < |lines| ==> Read(table, lines[k]) == groups[k] != []
    ensures ReadAll(table, lines) == Flatten(groups)
  {
    AllReadBack(table, maxLine, maxModes, groups, lines);
    forall k | 0 <= k < |lines|
      ensures Read(table, lines[k]) == groups[k] != []
    {
      assert Small(maxLine, maxModes, k == 0, groups[k]);
      GroupIsSendable(table, groups, k);
      hide Decode, ModeString, Values, Sendable;
      LineReadsBack(table, groups[k]);
    }
  }

  lemma {:induction false} GroupIsSendable(table: Table, groups: seq<seq<Change>>, k: nat)
    requires k < |groups| && Sendable(table, Flatten(groups))
    ensures Sendable(table, groups[k])
    decreases |groups|
  {
    hide *;
    var n := |groups| - 1;
    FlattenLast(groups);
    SendableHalves(table, Flatten(groups[..n]), groups[n]);
    if k < n {
      GroupIsSendable(table, groups[..n], k);
    }
  }

  lemma {:induction false} AllReadBack(table: Table, maxLine: nat, maxModes: nat, groups: seq<seq<Change>>, lines: seq<Line>)
    requires IsTable(table) && Batches(maxLine, maxModes, groups, lines) && Sendable(table, Flatten(groups))
    ensures ReadAll(table, lines) == Flatten(groups)
    decreases |groups|
  {
    if groups != [] {
      hide *;
      var n := |groups| - 1;
      BatchesSplit(maxLine, maxModes, groups, lines);
      SendableHalves(table, Flatten(groups[..n]), groups[n]);
      AllReadBack(table, maxLine, maxModes, groups[..n], lines[..n]);
      LineReadsBack(table, groups[n]);
      assert lines == lines[..n] + [lines[n]];
      ReadAllGrows(table, lines[..n], lines[n]);
    }
  }

  lemma BatchesSplit(maxLine: nat, maxModes: nat, groups: seq<seq<Change>>, lines: seq<Line>)
    requires Batches(maxLine, maxModes, groups, lines) && groups != []
    ensures var n := |groups| - 1;
      && |lines| == n + 1 && Batches(maxLine, maxModes, groups[..n], lines[..n])
      && lines[n] == LineOf(groups[n]) && groups[n] != []
      && Flatten(groups) == Flatten(groups[..n]) + groups[n]
  {
    hide LineOf, Flatten;
    var n := |groups| - 1;
    assert Small(maxLine, maxModes, n == 0, groups[n]);
    assert Flatten(groups) == Flatten(groups[..n]) + groups[n] by {
      FlattenLast(groups);
    }
  }

  lemma FlattenLast(groups: seq<seq<Change>>)
    requires groups != []
    ensures Flatten(groups) == Flatten(groups[..|groups| - 1]) + groups[|groups| - 1]
  {
  }

  lemma LineReadsBack(table: Table, cs: seq<Change>)
    requires IsTable(table) && Sendable(table, cs)
    ensures Read(table, LineOf(cs)) == cs
  {
    DecodeOfModeString(table, cs, None);
  }

  lemma SendableHalves(table: Table, a: seq<Change>, b: seq<Change>)
    requires Sendable(table, a + b)
    ensures Sendable(table, a) && Sendable(table, b)
  {
    var s := a + b;
    assert forall i :: 0 <= i < |a| ==> s[i] == a[i];
    assert forall i :: 0 <= i < |b| ==> s[|a| + i] == b[i];
  }

  // ---------- what the limits leave open: nothing ----------

  lemma LengthGrows(group: seq<Change>, c: Change)
    ensures Length(LineOf(group)) <= Length(LineOf(group + [c]))
  {
    LineGrows(group, c);
    if c.value != "" {
      ParamLengthGrows(LineOf(group).params, c.value);
    }
  }

  lemma {:induction false} LengthMonotone(group: seq<Change>, n: nat)
    requires n <= |group|
    ensures Length(LineOf(group[..n])) <= Length(LineOf(group))
    decreases |group|
  {
    hide LineOf, Length;
    if n == |group| {
      assert group[..n] == group;
    } else {
      var init, c := group[..|group| - 1], group[|group| - 1];
      assert group == init + [c] && init[..n] == group[..n];
      LengthMonotone(init, n);
      LengthGrows(init, c);
    }
  }

  lemma {:induction false} FlattenHead(groups: seq<seq<Change>>)
    requires groups != []
    ensures Flatten(groups) == groups[0] + Flatten(groups[1..])
    decreases |groups|
  {
    hide Flatten;
    FlattenLast(groups);
    FlattenOfNone();
    if |groups| == 1 {
      assert groups[..0] == [] && groups[1..] == [];
      assert [] + groups[0] == groups[0] == groups[0] + [];
    } else {
      var n := |groups| - 1;
      FlattenHead(groups[..n]);
      FlattenLast(groups[1..]);
      assert groups[..n][1..] == groups[1..][..n - 1] && groups[1..][n - 1] == groups[n];
      var mid := Flatten(groups[..n][1..]);
      assert groups[0] + mid + groups[n] == groups[0] + (mid + groups[n]);
    }
  }

  /** Groups that are small, all but the last one full, from some line on. */
  ghost predicate Packed(maxLine: nat, maxModes: nat, first: bool, groups: seq<seq<Change>>) {
    && (forall k :: 0 <= k < |groups| ==> Small(maxLine, maxModes, first && k == 0, groups[k]))
    && (forall k :: 0 <= k < |groups| - 1 ==> Full(maxLine, maxModes, first && k == 0, groups[k]))
  }

  lemma PackedTail(maxLine: nat, maxModes: nat, first: bool, groups: seq<seq<Change>>)
    requires Packed(maxLine, maxModes, first, groups) && groups != []
    ensures Packed(maxLine, maxModes, false, groups[1..]) && Small(maxLine, maxModes, first, groups[0]) && groups[0] != []
    ensures |groups| > 1 ==> Full(maxLine, maxModes, first, groups[0])
  {
    hide Full, LineOf, Length;
    var rest := groups[1..];
    assert forall k :: 0 <= k < |rest| ==> rest[k] == groups[k + 1];
    assert Small(maxLine, maxModes, first, groups[0]);
  }

  /** A full group cannot begin a longer small one. */
  lemma FullEnds(maxLine: nat, maxModes: nat, first: bool, g: seq<Change>, h: seq<Change>)
    requires Full(maxLine, maxModes, first, g) && Small(maxLine, maxModes, first, h)
    ensures !(|g| < |h| && g == h[..|g|])
  {
    if |g| < |h| && g == h[..|g|] {
      var init := h[..|h| - 1];
      assert init[..|g|] == g;
      LengthMonotone(init, |g|);
    }
  }

  lemma {:induction false} PackedUnique(maxLine: nat, maxModes: nat, first: bool, g: seq<seq<Change>>, h: seq<seq<Change>>)
    requires Packed(maxLine, maxModes, first, g) && Packed(maxLine, maxModes, first, h) && Flatten(g) == Flatten(h)
    ensures g == h
    decreases |g|
  {
    hide Packed, Small, Full, Flatten;
    if g == [] || h == [] {
      FlattenOfNone();
      if g != [] {
        FlattenHead(g);
        PackedTail(maxLine, maxModes, first, g);
      }
      if h != [] {
        FlattenHead(h);
        PackedTail(maxLine, maxModes, first, h);
      }
    } else {
      FlattenHead(g);
      FlattenHead(h);
      PackedTail(maxLine, maxModes, first, g);
      PackedTail(maxLine, maxModes, first, h);
      FirstGroups(maxLine, maxModes, first, g, h);
      assert Flatten(g)[|g[0]|..] == Flatten(g[1..]) && Flatten(h)[|h[0]|..] == Flatten(h[1..]);
      PackedUnique(maxLine, maxModes, false, g[1..], h[1..]);
      assert g == [g[0]] + g[1..] && h == [h[0]] + h[1..];
    }
  }

  lemma FlattenOfNone()
    ensures Flatten([]) == []
  {
  }

  lemma FirstGroups(maxLine: nat, maxModes: nat, first: bool, g: seq<seq<Change>>, h: seq<seq<Change>>)
    requires g != [] && h != [] && g[0] + Flatten(g[1..]) == h[0] + Flatten(h[1..])
    requires Small(maxLine, maxModes, first, g[0]) && Small(maxLine, maxModes, first, h[0])
    requires |g| > 1 ==> Full(maxLine, maxModes, first, g[0])
    requires |h| > 1 ==> Full(maxLine, maxModes, first, h[0])
    ensures g[0] == h[0]
  {
    hide Small, Full;
    var all := g[0] + Flatten(g[1..]);
    assert all[..|g[0]|] == g[0] && all[..|h[0]|] == h[0];
    assert |g[0]| <= |h[0]| ==> h[0][..|g[0]|] == g[0];
    assert |h[0]| <= |g[0]| ==> g[0][..|h[0]|] == h[0];
    FlattenOfNone();
    assert |g| == 1 ==> g[1..] == [] && |g[0]| == |all|;
    assert |h| == 1 ==> h[1..] == [] && |h[0]| == |all|;
    if |g[0]| < |h[0]| {
      FullEnds(maxLine, maxModes, first, g[0], h[0]);
    } else if |h[0]| < |g[0]| {
      FullEnds(maxLine, maxModes, first, h[0], g[0]);
    }
  }

  /** The limits and the changes determine the lines. */
  lemma LinesAreDetermined(maxLine: nat, maxModes: nat, g: seq<seq<Change>>, h: seq<seq<Change>>, lines: seq<Line>, lines': seq<Line>)
    requires Batches(maxLine, maxModes, g, lines) && Batches(maxLine, maxModes, h, lines') && Flatten(g) == Flatten(h)
    ensures g == h && lines == lines'
  {
    hide Small, Full, LineOf, Flatten;
    PackedUnique(maxLine, maxModes, true, g, h);
  }

  // ---------- lines over MaxModes ----------

  lemma {:induction false} TwoGroups(groups: seq<seq<Change>>)
    requires |groups| >= 2
    ensures |Flatten(groups)| >= |groups[0]| + |groups[1]|
    ensures |groups| == 2 ==> |Flatten(groups)| == |groups[0]| + |groups[1]|
    decreases |groups|
  {
    FlattenHead(groups);
    FlattenHead(groups[1..]);
    if |groups| == 2 {
      assert groups[1..][1..] == [];
    }
  }

  /** Without a line limit no line exceeds MaxModes if and only if two lines of that size hold all changes. */
  lemma WithinMaxModes(maxModes: nat, groups: seq<seq<Change>>, lines: seq<Line>)
    requires maxModes >= 1 && Batches(0, maxModes, groups, lines)
    ensures (forall k :: 0 <= k < |groups| ==> |groups[k]| <= maxModes) <==> |Flatten(groups)| <= 2 * maxModes
  {
    hide LineOf, Flatten, Length;
    if |groups| == 1 {
      FlattenHead(groups);
      FlattenOfNone();
      assert groups[1..] == [];
    } else if |groups| >= 2 {
      TwoGroups(groups);
      assert Full(0, maxModes, true, groups[0]);
      if |groups| > 2 {
        assert Full(0, maxModes, false, groups[1]);
      }
    } else {
      FlattenOfNone();
    }
    assert forall k :: 0 <= k < |groups| ==> Small(0, maxModes, k == 0, groups[k]);
  }

  /** Three changes with MaxModes = 1: the second line carries two. */
  lemma OneModeTooMany(a: Change, b: Change, c: Change)
    ensures Batches(0, 1, [[a], [b, c]], [LineOf([a]), LineOf([b, c])])
    ensures Flatten([[a], [b, c]]) == [a, b, c]
  {
    hide LineOf, Length;
    var groups := [[a], [b, c]];
    FlattenHead(groups);
    assert groups[1..] == [[b, c]];
    FlattenHead([[b, c]]);
    FlattenOfNone();
    assert [[b, c]][1..] == [];
    assert [a] + [b, c] == [a, b, c];
  }

  // ---------- the length of a line ----------

  function Spaced(params: seq<string>): string {
    if params == [] then "" else Spaced(params[..|params| - 1]) + " " + params[|params| - 1]
  }

  /** The mode string and the parameters as they stand on the wire. */
  function Text(line: Line): string {
    line.modes + Spaced(line.params)
  }

  lemma {:induction false} LengthIsText(line: Line)
    ensures Length(line) == |Text(line)|
  {
    SpacedLength(line.params);
  }

  lemma {:induction false} SpacedLength(params: seq<string>)
    ensures ParamLength(params) == |Spaced(params)|
  {
    if params != [] {
      SpacedLength(params[..|params| - 1]);
    }
  }

  /** Without its last change every line leaves 100 characters of MaxLine to what is put before it; a MaxLine below
      100 is no limit at all, as the difference wraps around. */
  lemma LineLimit(maxLine: nat, maxModes: nat, groups: seq<seq<Change>>, lines: seq<Line>)
    requires Batches(maxLine, maxModes, groups, lines) && maxLine < 0x1_0000_0000_0000_0000
    ensures maxLine >= 100 ==> forall k :: 0 <= k < |groups| ==>
      groups[k] != [] && |Text(LineOf(groups[k][..|groups[k]| - 1]))| + 100 <= maxLine
    ensures maxLine >= 100 ==> forall k :: 0 <= k < |groups| - 1 ==>
      |Text(LineOf(groups[k]))| + 100 > maxLine || (maxModes > 0 && |groups[k]| >= maxModes)
    ensures maxLine < 100 && maxModes == 0 && |Text(LineOf(Flatten(groups)))| < 0xFFFF_FFFF_FFFF_FF9C ==> |lines| <= 1
  {
    hide LineOf, Length, Text, Flatten;
    forall k | 0 <= k < |groups|
      ensures Length(LineOf(groups[k])) == |Text(LineOf(groups[k]))|
      ensures groups[k] != [] && Length(LineOf(groups[k][..|groups[k]| - 1])) == |Text(LineOf(groups[k][..|groups[k]| - 1]))|
    {
      LengthIsText(LineOf(groups[k]));
      LengthIsText(LineOf(groups[k][..|groups[k]| - 1]));
    }
    if |groups| > 1 {
      FlattenHead(groups);
      LengthIsText(LineOf(Flatten(groups)));
      LengthMonotone(Flatten(groups), |groups[0]|);
      assert Flatten(groups)[..|groups[0]|] == groups[0];
    }
  }

  /** A sign is written only where it changes: changes of one sign are a sign and their characters. */
  lemma {:induction false} SignOnce(cs: seq<Change>, add: bool)
    requires forall i :: 0 <= i < |cs| ==> cs[i].add == add
    ensures ModeString(cs, Some(add)) == seq(|cs|, i requires 0 <= i < |cs| => cs[i].mode.mchar)
    ensures cs != [] ==> ModeString(cs, None) == [if add then '+' else '-'] + ModeString(cs, Some(add))
  {
    if cs != [] {
      SignOnce(cs[1..], add);
    }
  }

  // ---------- a line by its positions ----------

  /** The last sign before a position. */
  function SignAt(modes: string, i: nat): Option<bool>
    requires i <= |modes|
  {
    if i == 0 then None
    else if modes[i - 1] == '+' then Some(true)
    else if modes[i - 1] == '-' then Some(false)
    else SignAt(modes, i - 1)
  }

  /** A known mode stands here, behind some sign. */
  predicate Names(table: Table, modes: string, i: nat)
    requires i < |modes|
  {
    modes[i] != '+' && modes[i] != '-' && SignAt(modes, i).Some? && modes[i] in table
  }

  /** It is one that wants a parameter. */
  predicate Wants(table: Table, modes: string, i: nat)
    requires i < |modes|
  {
    Names(table, modes, i) &&
    match table[modes[i]].kind
    case Regular => false
    case Param(minusNoArg) => SignAt(modes, i) == Some(true) || !minusNoArg
    case _ => true
  }

  function WantsBefore(table: Table, modes: string, i: nat): nat
    requires i <= |modes|
  {
    if i == 0 then 0 else WantsBefore(table, modes, i - 1) + if Wants(table, modes, i - 1) then 1 else 0
  }

  /** The change that a position stands for: the n-th mode that wants a parameter has the n-th one. */
  function ChangeAt(table: Table, line: Line, i: nat): seq<Change>
    requires i < |line.modes|
  {
    var n := WantsBefore(table, line.modes, i);
    if !Names(table, line.modes, i) then []
    else if !Wants(table, line.modes, i) then [Change(table[line.modes[i]], SignAt(line.modes, i).value, "")]
    else if n < |line.params| then [Change(table[line.modes[i]], SignAt(line.modes, i).value, line.params[n])]
    else []
  }

  function ChangesTo(table: Table, line: Line, i: nat): seq<Change>
    requires i <= |line.modes|
  {
    if i == 0 then [] else ChangesTo(table, line, i - 1) + ChangeAt(table, line, i - 1)
  }

  /** Whatever the line, reading it gives the changes of its positions in order. */
  lemma ReadByPosition(table: Table, line: Line)
    ensures Read(table, line) == ChangesTo(table, line, |line.modes|)
  {
    assert line.modes[0..] == line.modes && line.params[0..] == line.params;
    ReadFrom(table, line, 0);
  }

  /** How many of the parameters are used up before a position. */
  function Used(table: Table, line: Line, i: nat): (k: nat)
    requires i <= |line.modes|
    ensures k <= |line.params|
  {
    var n := WantsBefore(table, line.modes, i);
    if n <= |line.params| then n else |line.params|
  }

  lemma {:induction false} ReadFrom(table: Table, line: Line, i: nat)
    requires i <= |line.modes|
    ensures ChangesTo(table, line, i) + Decode(table, line.modes[i..], line.params[Used(table, line, i)..], SignAt(line.modes, i))
      == ChangesTo(table, line, |line.modes|)
    decreases |line.modes| - i
  {
    hide Decode, ChangesTo, ChangeAt, SignAt, Used;
    if i < |line.modes| {
      ReadFrom(table, line, i + 1);
      OnePosition(table, line, i);
      Regroup(ChangesTo(table, line, i), ChangeAt(table, line, i),
        Decode(table, line.modes[i + 1..], line.params[Used(table, line, i + 1)..], SignAt(line.modes, i + 1)));
    } else {
      LineEnds(table, line.modes[i..], line.params[Used(table, line, i)..], SignAt(line.modes, i));
      assert ChangesTo(table, line, i) + [] == ChangesTo(table, line, i);
    }
  }

  lemma Regroup(a: seq<Change>, b: seq<Change>, c: seq<Change>)
    ensures a + b + c == a + (b + c)
  {
  }

  lemma LineEnds(table: Table, modes: string, params: seq<string>, sign: Option<bool>)
    ensures modes == "" ==> Decode(table, modes, params, sign) == []
  {
  }

  lemma OnePosition(table: Table, line: Line, i: nat)
    requires i < |line.modes|
    ensures ChangesTo(table, line, i + 1) == ChangesTo(table, line, i) + ChangeAt(table, line, i)
    ensures Decode(table, line.modes[i..], line.params[Used(table, line, i)..], SignAt(line.modes, i)) ==
      ChangeAt(table, line, i) + Decode(table, line.modes[i + 1..], line.params[Used(table, line, i + 1)..], SignAt(line.modes, i + 1))
  {
    var k := Used(table, line, i);
    assert line.modes[i..][0] == line.modes[i] && line.modes[i..][1..] == line.modes[i + 1..];
    if k < |line.params| {
      assert line.params[k..][0] == line.params[k] && line.params[k..][1..] == line.params[k + 1..];
    }
  }
}
