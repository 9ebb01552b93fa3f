# Anope services: verified models

Anope is an IRC services daemon. This project models its algorithmic and protocol cores in Dafny and proves what they
promise. One module stands for one component:

- `Modes`, `ModeLines`, `ChannelStates`, `Channels`, `ChannelSync`, `ChannelRuns`: the channel mode pipeline, from guarded
  `SetMode`/`RemoveMode` calls through the pending-change lists, their order and the size-limited MODE lines to the reader
  on the other side.
- `SJoin`: the merge of channel bursts in which the older timestamp wins.
- `Glob`, `Distance`: the wildcard matcher and the edit distance.
- `SepStream`, `Wire`: the tokenizer, and the printer and parser of IRC lines (RFC 1459 section 2.3.1, with message tags).
- `DnsNames`, `DnsPackets`, `DnsRequests`: name compression, packets and the request table of the resolver (RFC 1035).
- `Access`, `References`: access chains, privileges and their order, and the reference counts of accounts.
- `Identify`, `Ids`, `Timers`, `Servers`, `Base64`: login requests, the id odometer, the timer scheduler, removal of
  server subtrees, and the base64 codec (RFC 4648 section 4).
- `Wrappers`, `Strings`, `OctetSeqs`: shared definitions.

Where the source updates objects, classes with the same fields do, and each method is tied to a function of the old
state or to the property itself; lemmas then say what those functions mean.

Some properties hold less widely than one might expect. The code is kept as it is, and the exact condition is proved:

- The matcher skips one star at the end of a mask only, so that a mask ending in two stars wants one more character
  (`Glob.MissedMatches`).
- Pending changes lose in three cases (`ChannelSync.StepExact`, `ChannelSync.LosesByKind`). Opposite changes of a
  parameter mode cancel whatever their values, so that a key that is removed and set to another value before anything is
  sent is lost (`ChannelRuns.KeyChangeIsLost`). Lists compare masks ignoring case where pending changes compare them
  exactly, so that a mask set under a pending removal of another spelling is lost (`ChannelRuns.RespelledMaskIsLost`).
  And users are found by id or nick where pending changes compare the name given, so that a status given by nick, as mode
  locks do, under a pending removal by id is lost (`ChannelRuns.RenamedUserIsLost`). Regular modes are never lost, nor are
  masks that are always spelled alike and statuses of users who are always named alike (`ChannelRuns.Session`).
- After the first MODE line the count of changes restarts at 0 with the new change unpaid, so that later lines carry
  MaxModes + 1 changes where there are as many: without a line limit, if and only if there are more than 2 * MaxModes in
  all (`ModeLines.WithinMaxModes`).
- Parameter modes of bursts depend on the order of the messages unless the earliest ones agree (`SJoin.ParamExact`).
- The decoder drops one trailing zero octet (`Base64.RoundTrip`).
- An AUTO privilege can be lost by adding an entry, by the founder alone (`Access.WhenFounderLoses`), who then outweighs
  others who have it (`Access.FounderLacks`).
- A MaxLine below 100 is no limit at all (`ModeLines.LineLimit`).
- A name survives packing if and only if it has no empty label and none over 63 octets (`DnsNames.NameRoundTrip`), and a
  record if and only if it is of type A, AAAA, CNAME or PTR (`DnsPackets.RecordReadExactly`).
- The id loop of the DNS table ends if and only if some id is usable; the check of the socket's queue before it does not
  look at the table (`DnsRequests.Manager.GetID`, `DnsRequests.Manager.NeverEnds`, `DnsRequests.Exhaust`). The search for
  a user or server id ends if and only if a free one comes up (`Ids.EndsExactly`). The loop over due timers does not end
  while one of them repeats at an interval of 0 or less (`Timers.TicksForEver`).
- A printed line is read back if and only if its parts are lexically plain (`Wire.RoundTripExactly`).
- A request issued twice, a channel deleted under entries outside its list, and a server introduced under a name in use
  break their invariants, and nothing else does (`DnsRequests.Manager.Process`, `References.Services.DeleteChannel`,
  `Servers.Network.Introduce`).

Parameters stand for what lies outside: the case map, `User::Find` and `BotInfo::Find`, the validation of mode
parameters, masks and tags, which may rewrite them, the reversed form of addresses, the table of modes, the limits
MaxLine and MaxModes, the clock, the answers of timer callbacks, the known channels, and what an access provider
grants an entry. Module hooks are taken as absent.

`dafny verify dfyconfig.toml` checks everything.

## Model

| member | source | states |
|---|---|---|
| `Modes.StackerInfo.AddMode` | src/modes.cpp:260-309 | no slot (a mode, and its value unless it is a parameter mode) is ever pending twice; a change replaces the one pending in its slot, and if that is the opposite change both vanish; all other slots stay |
| `Modes.StackStep` | src/modes.cpp:260-309 | erasing from one list, erasing from the other and appending amounts, on the set of pending changes, to exactly that replace-or-cancel rule, in whichever lists the changes stand |
| `Modes.UnmatchedMembers` | src/modes.cpp:274-307 | erasing the first match of a list without repeats removes precisely the entry in the slot, and shortens the list if and only if there was one |
| `Modes.BuildModeMap` | src/modes.cpp:580-589 | the changes to be sent are exactly the pending ones, each once, in the order of the mode objects, with all additions of a mode before its removals |
| `Modes.EmplaceKeeps` | src/modes.cpp:582-587 | one insertion into the multimap keeps that order, the additions-first rule and distinct slots, and adds just the one change |
| `ModeLines.BuildModeChange` | src/protocol.cpp:119-166 | the lines carry consecutive non-empty groups of the changes, in order and without loss; no group exceeds MaxModes changes in the first line or one more in later ones, nor MaxLine - 100 (unsigned) before its last change, and every group but the last has reached one of these limits |
| `ModeLines.LinesAreDetermined` | src/protocol.cpp:130-162 | limits and changes leave one way only to form the lines |
| `ModeLines.WithinMaxModes` | src/protocol.cpp:134-144 | without a line limit no line exceeds MaxModes changes if and only if there are at most 2 * MaxModes of them |
| `ModeLines.OneModeTooMany` | src/protocol.cpp:134-144 | three changes under MaxModes = 1: the second line carries two |
| `ModeLines.LineLimit` | src/protocol.cpp:119-144 | without its last change the text of every line leaves 100 characters of MaxLine, and no line but the last could take one more; a MaxLine below 100 wraps around and is no limit |
| `ModeLines.SignOnce` | src/protocol.cpp:146-151 | a sign is written only where it changes |
| `ModeLines.DecodeOfModeString` | src/protocol.cpp:143-159 | reading a mode string with its values under the sign it starts with gives back the changes it was built from |
| `ModeLines.LinesReadBack` | src/channels.cpp:632-708 | every line read on its own, its sign unset at first, gives back its group, no group is empty, and all lines together give back the change list in order |
| `ModeLines.ReadByPosition` | src/channels.cpp:632-708 | of any line at all, each position behind a sign stands for the change of its mode with the last sign before it, the n-th mode that wants a parameter has the n-th one, and those beyond the last are skipped |
| `Channels.Channel.SetModeInternal` | src/channels.cpp:251-322 | the whole new state: a status is added to the member found by id or nick, if any, a list item only if no item matches it ignoring case, any other mode replaces its item |
| `Channels.Channel.RemoveModeInternal` | src/channels.cpp:324-401 | the whole new state: a status is taken from the bot of that name or id if there is one, else from the member, a list item is found ignoring case, any other mode loses its item |
| `Channels.Channel.SetMode` | src/channels.cpp:403-460 | a call that is refused, or for what is set already, does nothing; after any other what it asks for is set, with the parameter or mask as validation leaves it, that one change is pending, and nothing else has changed; for one who is not on the channel it is pending only |
| `Channels.Channel.RemoveMode` | src/channels.cpp:467-519 | a call for what is not set does nothing; after any other it is not set, that one change is pending, a parameter mode with its own value or with none if it takes none when removed, and nothing else has changed |
| `ChannelStates.SetIsDone` | src/channels.cpp:403-460 | the guards and the change of SetMode amount to that, for every kind of mode |
| `ChannelStates.RemoveIsDone` | src/channels.cpp:467-519 | the guards and the change of RemoveMode amount to that, for every kind of mode |
| `Channels.Channel.ReadLine` | src/channels.cpp:632-708 | the loop over the mode string and the parameter iterator has the effect of the changes that the line stands for, made one after another |
| `Channels.Channel.SetModesInternal` | src/channels.cpp:610-708 | a newer timestamp changes nothing, an older one resets the channel first, an equal one or 0 just reads the line |
| `Channels.Channel.Reset` | src/channels.cpp:68-94 | all modes are gone, remote members have no status, own users keep theirs, and exactly those statuses are asked for again, cancelling their pending removals |
| `ChannelRuns.ResetAsksAgain` | src/channels.cpp:68-94 | if the server clears the channel as well, what is pending afterwards gives our users exactly the statuses that services believe they have |
| `Channels.Channel.JoinUser` | src/channels.cpp:138-150 | the member has the given status, or none, and nobody else changes |
| `ChannelStates.InternalIsApplied` | src/channels.cpp:251-401 | for values a mode takes, setting and removing update one place of the board of everything set: a mask by its folded form, a status by the id of the member named, by id or nick; a mask already there keeps its spelling, and the status of one who is not on the channel changes nothing |
| `ChannelSync.AppliedAllIsOverlay` | src/modes.cpp:580-589 | sent in the order of the multimap, the changes lead to (server + additions) - removals, place by place, also when an addition and a removal of one mask are spelled differently or name one user differently |
| `ChannelSync.StepExact` | src/modes.cpp:274-308 | after one guarded change of any mode services and server agree, once everything is sent, if and only if the change does not lose |
| `ChannelSync.LosesByKind` | src/modes.cpp:274-308 | which changes lose: none of a regular mode; the addition of a mask or a status if and only if a removal is in the way, which is about the same mask or user in another spelling or name, or of what the server does not hold so; a change of a parameter mode that cancels the opposite one while the server holds another value, or any |
| `ChannelSync.StepKeeps` | src/modes.cpp:274-308 | a change that does not lose keeps at most one addition and one removal at a place, additions only of what the server lacks, removals only of what it has or of what is being added in another spelling or name |
| `ChannelRuns.NeverLoses` | src/modes.cpp:274-308 | changes of regular modes never lose, nor do those of masks always spelled alike and of users always named alike |
| `ChannelRuns.DoExact` | src/channels.cpp:403-519 | one guarded SetMode or RemoveMode, of any mode, any mask and any user by any name, keeps the whole invariant if and only if its change does not lose |
| `ChannelRuns.RunExact` | src/channels.cpp:403-519 | a run of calls stays in sync all the way if and only if no call loses |
| `ChannelRuns.RunStaysInSync` | src/channels.cpp:403-519 | after any sequence of calls about regular, status and list modes, each mask spelled one way and each member named one way: local = (server + AddModes) - DelModes, AddModes disjoint from the server and DelModes part of it |
| `ChannelRuns.KeyChangeIsLost` | src/modes.cpp:296-297 | a case that loses: a key removed and set to another value before anything is sent leaves nothing pending and two different keys |
| `ChannelRuns.RespelledMaskIsLost` | src/modes.cpp:281-297 | another: a ban removed and set again in other letters; the addition is sent first and ignored, then the ban goes, and services believe in one that is not there |
| `ChannelRuns.RenamedUserIsLost` | src/modes.cpp:281-297 | a third: a status taken by id and given again by nick, as a mode lock does; both are sent, the addition first, and services believe a user opped whom the server has deopped |
| `ChannelRuns.StrangersChangeNothing` | src/channels.cpp:427-431 | the status of a user who is not on the channel is queued and sent, changes neither side, and keeps the invariant |
| `ChannelRuns.Flush` | src/modes.cpp:591-612 | what is pending becomes lines within the limits that carry exactly the pending changes, and nothing stays pending |
| `ChannelRuns.LinesBringThere` | src/channels.cpp:610-708 | the lines of a flush, read by the server, bring its board to server + additions - removals |
| `ChannelStates.BoardTells` | src/channels.cpp:211-240 | two tidy channels with the same members and the same board have the same modes and statuses |
| `ChannelRuns.Send` | src/modes.cpp:591-612 | end to end: from an invariant state, flushing and reading the lines leaves the server with exactly the state that services believe, and the invariant holds again |
| `ChannelRuns.Session` | src/modes.cpp:591-612 | rounds of calls and flushes: with no parameter modes, each mask spelled and each member named one way, the server ends every round with exactly the channel that services have |
| `SJoin.SJoin` | src/messages.cpp:112-174 | the channel after the message: created if missing, reset if the message is older, deaf to modes and statuses if it is newer; an older message asks again for the status of own users, others leave what is pending; all that the next message needs holds again |
| `SJoin.MembersStay` | src/messages.cpp:112-174 | for any message, timestamp 0 included, and any list of users: who was there stays, and keeps each status as the reset and the last change of the line about it leave it, listed or not; others join with the status they are first listed with, unless the message is newer |
| `SJoin.Receive` | src/messages.cpp:112-174 | a list of messages, one after another, on any channel or none, leads to the merge of the list |
| `SJoin.MergeIsMerged` | src/messages.cpp:112-160 | a burst of new users changes timestamp, parameterless modes, masks and statuses in one of three ways, by whether its timestamp is older, equal or newer |
| `SJoin.MergeOutcome` | src/messages.cpp:112-160 | over any sequence of bursts that finds a channel: timestamp = minimum; a member for every user, old or new; a new user keeps its status if and only if its message had the minimum, an old one if the channel had it or the user is of this server; the modes are the union over the channel and the messages with the minimum |
| `SJoin.MergeNewOutcome` | src/messages.cpp:112-160 | the same where there was no channel: minimum, members and modes come from the messages alone |
| `SJoin.OutcomeIsUnique` | src/messages.cpp:112-160 | that description fits one channel only and does not depend on the order of the messages |
| `SJoin.Convergence` | src/messages.cpp:112-160 | from any channel or none, with members of any server, every permutation of the bursts, at any local clock, ends in the same channel |
| `SJoin.MergeParam` | src/messages.cpp:139-143 | a parameter mode ends with what some earliest of the messages and the channel they find makes of it, or unset if none touches it |
| `SJoin.ParamExact` | src/messages.cpp:139-143 | from any channel, a parameter mode ends the same in every order if and only if the earliest messages that touch it agree |
| `SJoin.NewParamExact` | src/messages.cpp:139-143 | the same where there was no channel |
| `Glob.Match` | src/misc.cpp:762-823 | terminates; true exactly if the mask matches under the relation for * and ?, where a mask that ends in two stars counts as its core followed by ?*; never true without a match |
| `Glob.LaterStarSuffices` | src/misc.cpp:780-818 | whatever an earlier star could still reach, the last star can: backtracking only to it loses nothing |
| `Glob.NoLaterRestart` | src/misc.cpp:780-818 | once the subject is used up between a star and the end, no later restart from that star matches |
| `Glob.Exhausted` | src/misc.cpp:820-823 | at the end of the subject the answer is right after skipping at most one star |
| `Glob.EffectiveMaskIsExact` | src/misc.cpp:820-823 | what the loop decides on suffixes is the declarative relation for the effective mask |
| `Glob.MissedMatches` | src/misc.cpp:820-823 | a match is missed if and only if the mask ends in two stars, its core matches the whole subject, and no shorter prefix |
| `Glob.TwoStarsMissNothing` | src/misc.cpp:820-823 | such a case: two stars and the empty subject |
| `Glob.LiteralMask` | src/misc.cpp:762-823 | a mask without wildcards matches itself only, up to the case map unless case matters |
| `Distance.Distance` | src/misc.cpp:1090-1122 | the length of a shortest script of insertions, deletions and substitutions that turns one string into the other |
| `Distance.NextRow` | src/misc.cpp:1103-1118 | the inner loop turns the row of one prefix, in place, into the row of the next |
| `Distance.CornerRule` | src/misc.cpp:1109-1115 | the loop's rule, which takes the corner whenever the characters agree, computes the least of all three choices |
| `Distance.NoShorterScript` | src/misc.cpp:1090-1122 | no script is shorter than the recurrence says |
| `Distance.ShortestScript` | src/misc.cpp:1090-1122 | a script of that length exists |
| `Distance.LevIsEditDistance` | src/misc.cpp:1090-1122 | the recurrence is the edit distance, and the edit distance is one number |
| `Distance.EditDistanceIsMetric` | src/misc.cpp:1090-1122 | zero if and only if equal, symmetric, triangle inequality |
| `DnsNames.PackName` | modules/dns.cpp:37-55 | fails if and only if the name and two more octets do not fit; else writes the encoding of the labels and nothing outside it |
| `DnsNames.EncodingFits` | modules/dns.cpp:39-40 | the bound that is checked is enough for every name, empty labels included |
| `DnsNames.UnpackName` | modules/dns.cpp:57-115 | terminates on every input, by the lowest pointer and then the position; reads only inside; returns the labels joined by dots; ends past its start and inside the input, behind the zero or the first pointer |
| `DnsNames.UnpackFails` | modules/dns.cpp:66-104 | where the loop throws, at a bad header, a pointer cut short or not going back, or a label too long, the input denotes no name |
| `DnsNames.LabelsRead` | modules/dns.cpp:57-115 | packed labels of 1 to 63 octets are read back anywhere in any input |
| `DnsNames.CompressedRead` | modules/dns.cpp:66-104 | labels followed by a pointer are these labels and those at the place it gives, and the name ends behind the pointer |
| `DnsNames.LabelsSpell` | modules/dns.cpp:44-55 | the labels spell the name if and only if none was empty |
| `DnsNames.NameReadBack` | modules/dns.cpp:37-115 | a packed name with labels of 1 to 63 octets is read back, at any offset |
| `DnsNames.NameRoundTrip` | modules/dns.cpp:37-115 | for every byte string, at any offset of any input: unpacking what was packed gives it back if and only if it has no empty label and none over 63 octets |
| `DnsNames.LabelsAreShort` | modules/dns.cpp:57-115 | whatever the input, a label read has 1 to 63 octets |
| `DnsNames.EmptyLabelIsLost` | modules/dns.cpp:44-55 | the octets of a name with an empty label, and that it comes back without it |
| `DnsPackets.PackQuestion` | modules/dns.cpp:352-363 | fails exactly when the name or four more octets and one to spare do not fit; else writes name, type and class and nothing else |
| `DnsPackets.PackRecord` | modules/dns.cpp:369-486 | the same for records of every type: addresses, names behind their length, which is written last, the two names and five numbers of a start of authority, and for other types no data at all |
| `DnsPackets.Pack` | modules/dns.cpp:311-488 | fails if and only if one of its checks does, a question of type PTR about no address included; else rewrites those questions in the packet and writes header, questions and the three record sections, exactly as many octets as it returns |
| `DnsPackets.UnpackQuestion` | modules/dns.cpp:117-136 | name, type and class, or nothing if they are cut short or the name has other characters; ends past its start and inside the input |
| `DnsPackets.UnpackResourceRecord` | modules/dns.cpp:138-262 | question part, time to live and data by type, or nothing, also for a text without data at the very end; ends past its start and inside the input |
| `DnsPackets.Fill` | modules/dns.cpp:264-309 | all questions and answers or nothing; of authorities and additional records what can be read before the first failure |
| `DnsPackets.QuestionRead` | modules/dns.cpp:117-136 | an encoded question is read back, and the position moves by its length |
| `DnsPackets.RecordRead` | modules/dns.cpp:138-262 | an encoded record of type A, AAAA, CNAME or PTR is read back, and the position moves by its length |
| `DnsPackets.RecordLayout` | modules/dns.cpp:369-486 | every packed record is its question part, the time to live and, for the types that have data, the length of the rest |
| `DnsPackets.ZoneRead` | modules/dns.cpp:440-475 | the data of a start of authority is the name of the server, that of the administrator, then serial, refresh, refresh, 604800 and 0, as section 3.3.13 of RFC 1035 lays it out |
| `DnsPackets.MailboxAsName` | modules/dns.cpp:440-475 | the administrator's mailbox becomes a name: local part, then domain |
| `DnsPackets.NameServerRead` | modules/dns.cpp:424-438 | the data of a name server record is its name |
| `DnsPackets.TextRead` | modules/dns.cpp:198-210 | of a text record the first string is read and the rest of the data skipped |
| `DnsPackets.ServiceRead` | modules/dns.cpp:211-234 | priority, weight, port and host of a service record are read |
| `DnsPackets.DataCutShort` | modules/dns.cpp:138-240 | data that ends too early is refused |
| `DnsPackets.ValidCharacters` | modules/dns.cpp:32-35 | letters, digits, dots and hyphens are allowed in names, their neighbours are not |
| `DnsPackets.RecordReadExactly` | modules/dns.cpp:138-262 | of the records that can be packed exactly those are |
| `DnsPackets.RoundTrip` | modules/dns.cpp:264-488 | filling from encoded octets restores id, flags, all questions and all records in order |
| `DnsPackets.CutInAuthorities` | modules/dns.cpp:264-309 | a packet that ends behind some authorities is filled with these and no additional records |
| `DnsPackets.CutInAnswers` | modules/dns.cpp:264-309 | one that ends behind some answers is not filled at all |
| `DnsPackets.PackedIsFilled` | modules/dns.cpp:264-488 | the octets that a successful Pack wrote and counted fill the same packet |
| `DnsPackets.PackSucceeds` | modules/dns.cpp:311-488 | Pack succeeds whenever the output has two octets to spare |
| `DnsPackets.QuestionRoomExactly` | modules/dns.cpp:352-363 | a question is packed if and only if an octet is to spare behind it |
| `DnsPackets.RecordRoomExactly` | modules/dns.cpp:369-486 | a record with an address or a name is packed if and only if it fits, any other if and only if an octet is to spare |
| `DnsRequests.Manager.GetID` | modules/dns.cpp:781-791 | ends within 65536 steps if some id is usable, with the next usable one on the wheel, never 0 |
| `DnsRequests.Manager.NeverEnds` | modules/dns.cpp:786-788 | with none usable every id that it comes to is rejected |
| `DnsRequests.Exhaust` | modules/dns.cpp:783-808 | such a table can be reached, while the queue of the socket is not full |
| `DnsRequests.Manager.Process` | modules/dns.cpp:794-819 | issues the request under an unused id, or leaves the table alone but for a request answered from the cache; requests[id].id == id is kept if and only if no request is issued a second time |
| `DnsRequests.Manager.Destroy` | include/modules/dns.h:179-182 | destroying a request removes its own item and no other, and none if it was never issued |
| `DnsRequests.Manager.RemoveRequest` | modules/dns.cpp:821-824 | the item under the id of the request is erased |
| `DnsRequests.Manager.HandleAnswer` | modules/dns.cpp:913-974 | only a response by UDP from the right server to an outstanding id ends a request: that one; with success exactly for opcode 0, response code 0 and some question and answer, else with the error of its opcode, code or lack of records |
| `SepStream.SepStream.GetToken` | src/hashcomp.cpp:106-133 | the next of the pieces between separators, empty ones skipped unless allowed, and false exactly when none is left |
| `SepStream.SepStream.GetTokenNumber` | src/hashcomp.cpp:135-140 | the token with that number if there are so many, and the stream is left behind it; -1 is granted and lower numbers are refused without reading |
| `SepStream.SepStream.NumTokens` | src/hashcomp.cpp:142-148 | the number of tokens left, and the stream is at its end |
| `SepStream.JoinSplit` | src/hashcomp.cpp:106-133 | with empty tokens allowed, the tokens joined by the separator are the string |
| `SepStream.SplitJoin` | src/hashcomp.cpp:106-133 | pieces without the separator, joined by it, are split into themselves |
| `SepStream.NonEmptyJoins` | src/hashcomp.cpp:106-133 | without empty tokens just those are dropped, and the others stay in order |
| `Wire.MessageTokenizer.GetMiddle` | src/process.cpp:231-252 | the first word of what is left, which then starts behind the spaces after it; false exactly at the end |
| `Wire.MessageTokenizer.GetTrailing` | src/process.cpp:254-273 | the next parameter, or all the rest after a colon |
| `Wire.Parse` | src/process.cpp:110-156 | tags, source, command and parameters of the line, unless it is refused |
| `Wire.ParseFailsExactly` | src/process.cpp:110-156 | a line is refused if and only if its tags, or its source, are followed by nothing but spaces |
| `Wire.Format` | src/process.cpp:158-224 | fails exactly for a server that is neither this one nor juped, a user of such a server, or a bot not introduced; else the printed line |
| `Wire.ColonWhereNeeded` | src/process.cpp:206-219 | only the last parameter has a colon, and only if it is empty, starts with one or holds spaces |
| `Wire.LineExample` | src/process.cpp:158-224 | a line with tags, source and parameters, character by character |
| `Wire.RoundTrip` | src/process.cpp:110-224 | parsing a printed line gives the valid tags, the same source, command and parameters, a last one that is empty, starts with a colon or holds spaces included |
| `Wire.RoundTripExactly` | src/process.cpp:110-224 | for any command but the empty one: parsing a printed line gives these back if and only if the valid tags are plain, source and command hold no spaces, only the last parameter is empty, starts with a colon or holds spaces, and the command does not look like a source or a tag section |
| `Wire.ParamsRead` | src/process.cpp:206-219 | printed parameters are read back |
| `Wire.TagsRead` | src/process.cpp:121-135 | printed tags are read back into the same map |
| `Wire.PutKeepsOrder` | src/process.cpp:129-134 | assigning a tag keeps the map ordered with one item a key, for every strict weak order |
| `Wire.PutThere` | src/process.cpp:129-134 | a tag that comes again keeps its place and spelling |
| `Wire.TagGiven` | src/process.cpp:124-135 | a tag with a value replaces the one before it, one without leaves the value, and no other tag changes |
| `Wire.ParsedIsWellFormed` | src/process.cpp:110-156 | whatever the line, the parsed tags are in order and plain, source and command are free of spaces, and the parameters can be printed again |
| `Wire.Relayed` | src/process.cpp:110-224 | a parsed line printed again under its source parses to the same, but for tags that are not valid |
| `Wire.CiLessIsOrder` | src/hashcomp.cpp:97-100 | the comparison of the tag map, which stops at terminators, is a strict weak order |
| `Wire.CiAlike` | src/hashcomp.cpp:97-100 | strings without terminators are the same key if and only if they differ in case only |
| `Wire.CiTerminated` | src/hashcomp.cpp:97-100 | behind terminators in the same place only the lengths count |
| `Access.Matches` | src/access.cpp:233-264 | an account entry matches that account only; a mask entry matches by nick, displayed mask or alias; only an entry that does not match leads to a channel |
| `Access.WhoMatches` | src/access.cpp:233-264 | an account entry matches that account alone; a mask that could be a nick matches the accounts that own the nick and whoever is displayed just so, but not whoever merely uses the nick |
| `Access.AccessGroup.FindMatchesRecurse` | src/regchannel.cpp:296-321 | terminates on every reference graph and appends, in order, the prefixed chains found from the channel at that depth |
| `Access.AccessGroup.FindMatches` | src/regchannel.cpp:323-327 | appends the chains of the channel |
| `Access.ChainsExact` | src/regchannel.cpp:296-321 | a path is collected if and only if it is a chain (inner entries do not match but lead on, the last one matches) of at most MAX_DEPTH + 1 entries |
| `Access.ChainsInOrder` | src/regchannel.cpp:296-321 | paths come in the order of the entries they begin with |
| `Access.AccessGroup.HasPriv` | src/access.cpp:334-364 | super admin, or enabled and founder unless it is an AUTO privilege and some path was found, or enabled and some path has it throughout |
| `Access.DecidesExactly` | src/access.cpp:334-364 | super admins have every privilege, nobody else one that is not enabled, founders every enabled one that is not AUTO; AUTO ones, and others all, by a chain of at most five entries that all grant it, or, for a founder, by no chain at all |
| `Access.SuperAdminLacksNothing` | src/access.cpp:334-416 | who outweighs another as a super admin lacks nothing that the other has |
| `Access.FounderLacks` | src/access.cpp:334-416 | who outweighs another as founder of the channel lacks exactly the AUTO privileges of the other that no path grants him once he is on a list |
| `Access.PathHasPriv` | src/access.cpp:317-332 | a path has a privilege if it is not empty and all its entries have it |
| `Access.GroupGrants` | src/access.cpp:317-364 | for others than founder and super admin: the privilege is enabled and some chain within the depth has it on every entry |
| `Access.EntriesNeverRevoke` | src/access.cpp:334-364 | adding entries to any channels never takes a privilege from one who is not the founder |
| `Access.WhenFounderLoses` | src/access.cpp:341-349 | the founder loses one by it if and only if it is an AUTO privilege held without any path and the new paths do not grant it |
| `Access.FounderLosesAutoOp` | src/access.cpp:341-349 | a concrete founder who loses AUTOOP by a first entry of his own |
| `Access.PrivilegeManager.AddPrivilege` | src/access.cpp:33-45 | the new privilege stands behind those of its rank and before the higher ones, and the list stays ranked |
| `Access.Greater` | src/access.cpp:266-281 | one entry is above another exactly if its highest privilege stands higher |
| `Access.Less` | src/access.cpp:283-298 | the converse of that order |
| `Access.AccessGroup.GreaterThan` | src/access.cpp:392-416 | groups compare by one weight: super admins above founders above all others by their highest privilege |
| `Access.AccessGroup.LessThan` | src/access.cpp:418-442 | the converse of that order, by the same weight |
| `Access.HighestInPath` | src/access.cpp:366-375 | an entry of the path that none of it is above |
| `Access.Highest` | src/access.cpp:377-390 | an entry of some path that no entry of any path is above |
| `Access.StandingByRank` | src/access.cpp:266-281 | in a ranked list, standing higher means holding a privilege the other lacks and that no privilege of the other outranks |
| `References.NickCore.AddChannelReference` | src/nickcore.cpp:189-192 | the count of that channel is one higher, others stay |
| `References.NickCore.RemoveChannelReference` | src/nickcore.cpp:194-199 | the count of that channel is one lower, and gone at zero |
| `References.Services.SetFounder` | src/regchannel.cpp:230-245 | the channel has the new founder; keeps the books balanced: the reference and the channel count pass from the old one to the new one |
| `References.Services.SetSuccessor` | src/regchannel.cpp:252-259 | the channel has the new successor; keeps the books balanced: the reference passes from the old one to the new one |
| `References.Services.SetMask` | src/access.cpp:143-172 | keeps the books balanced: the entry drops the account it named and names the one found, or keeps the mask |
| `References.Services.DeleteEntry` | src/access.cpp:124-141 | keeps the books balanced: the entry leaves its list, and its account drops the reference |
| `References.Services.ClearAccess` | src/regchannel.cpp:422-426 | deletes all entries of the list, although each deletion edits the list being walked |
| `References.Services.AddAccess` | src/regchannel.cpp:281-284 | appends the entry and changes no count |
| `References.Services.DeleteChannel` | src/regchannel.cpp:61-98 | afterwards an account counts the channel if and only if an entry outside its list names both; the books stay balanced if and only if there is none; all other channels are as before |
| `References.Services.Conservation` | src/nickcore.cpp:189-199 | in every reachable state an account's count for a channel is [founder] + [successor] + its entries there, zero counts are absent, no unregistered channel is counted, and channelcount is the number of channels founded modulo 2^16 |
| `References.FounderStep` | src/regchannel.cpp:230-245 | passing the founder on, in channels and counts alike, keeps every account right about every channel |
| `References.UnnamedStep` | src/access.cpp:124-172 | so does an entry that stops naming an account |
| `References.NamedStep` | src/access.cpp:155-171 | so does an entry that starts naming one |
| `References.GoneStep` | src/regchannel.cpp:61-98 | a channel that refers to nobody is counted by nobody and can go |
| `Identify.Registry.Create` | src/account.cpp:24-31 | a new request is live and in the set |
| `Identify.Registry.Hold` | src/account.cpp:38-41 | the module holds the request, nothing else changes |
| `Identify.Registry.Release` | src/account.cpp:43-52 | the hold goes; a dispatched request without holds fails unless it succeeded and is deleted, and only then |
| `Identify.Registry.Success` | src/account.cpp:54-61 | OnSuccess is called by the first success only |
| `Identify.Registry.Dispatch` | src/account.cpp:63-73 | a request without holds ends at once, any other waits |
| `Identify.Registry.ModuleUnload` | src/account.cpp:75-98 | every request loses the hold and ends if nothing holds it any more after dispatch or the module owns it; the set is what is still live |
| `Identify.StepKeepsGood` | src/account.cpp:24-98 | every call on live requests keeps: deleted at most once, after exactly one callback, OnSuccess exactly if it succeeded; the set is exactly the live requests |
| `Identify.EveryRun` | src/account.cpp:24-98 | that holds over every run, and a request counts as succeeded exactly if some Success call came |
| `Identify.AliveExactly` | src/account.cpp:24-98 | over every run, from the calls alone: a request is alive if and only if its owner was not unloaded and, once it was dispatched, some hold was neither released nor lost by an unload |
| `Identify.UnloadEndsExactly` | src/account.cpp:75-98 | an unload ends the requests of that module and those dispatched ones that it alone holds, and no other |
| `Identify.DeletedForGood` | src/account.cpp:24-98 | a deleted request never changes again |
| `Identify.DeletedWithoutHolds` | src/account.cpp:43-73 | Release and Dispatch delete only requests without holds |
| `Ids.Generator.Advance` | src/protocol.cpp:67-71 | the carry loop is one step of the odometer |
| `Ids.SuccAddsOne` | src/protocol.cpp:46-58 | one step adds one to the number that the characters A to Z, 0 to 9 spell, except at the highest one |
| `Ids.AllNines` | src/protocol.cpp:46-58 | the highest one is all 9, and goes to 0 followed by all A |
| `Ids.NthValue` | src/protocol.cpp:46-75 | k steps from a digit-first id, value by value, keep a digit first |
| `Ids.OneCycle` | src/protocol.cpp:46-75 | the digit-first ids of a length form one cycle of 10 * 36^(n-1) |
| `Ids.Reaches` | src/protocol.cpp:60-75 | after an id come up all digit-first ones of its length, and while it is letter-first all higher ones |
| `Ids.OnlyThese` | src/protocol.cpp:60-75 | and no others |
| `Ids.EndsExactly` | src/protocol.cpp:60-94 | the search ends if and only if one of them is free |
| `Ids.LetterFirstIsFound` | src/protocol.cpp:60-75 | such a case with no digit-first id free |
| `Ids.Generator.Retrieve` | src/protocol.cpp:60-94 | if some id that comes up is free, ends with the first unused one after the current one |
| `Timers.TimerManager.AddTimer` | src/timers.cpp:69-72 | the timer is stored under its trigger behind those with the same one |
| `Timers.TimerManager.DelTimer` | src/timers.cpp:74-85 | searching the equal range of the trigger alone finds the timer wherever it is stored; nothing else moves |
| `Timers.TimerManager.SetTimer` | src/timers.cpp:39-44 | the timer is stored once, under its new trigger |
| `Timers.TimerManager.SetSecs` | src/timers.cpp:51-57 | the timer is stored once, one interval from now |
| `Timers.TimerManager.TickTimers` | src/timers.cpp:87-102 | terminates; fires the timers due at entry, each once, in key order, and no other; afterwards the map holds the timers that were not due and those to be repeated, one interval from now, and no other; none is due |
| `Timers.NeverDone` | src/timers.cpp:87-102 | the other half: with a due timer that repeats at an interval of 0 or less, the loop has a timer to fire, and has such a timer again afterwards |
| `Timers.TicksForEver` | src/timers.cpp:87-102 | however often the loop has gone round then, it goes round again |
| `Timers.DueExactly` | src/timers.cpp:87-102 | the timers that fire are exactly those with a trigger not after now, in non-decreasing order |
| `Servers.Network.DelLink` | src/servers.cpp:236-251 | fails exactly for a server without links; else the first link to the server, if any, is erased, and the others keep their order |
| `Servers.Network.QuitUsers` | src/servers.cpp:144-155 | exactly the users of the server quit, once |
| `Servers.Network.Delete` | src/servers.cpp:144-176 | terminates; both indexes lose exactly the subtree, exactly its users quit, once, and the uplink loses one link, although every child edits its parent's links during the loop |
| `Servers.Network.Remove` | src/servers.cpp:144-176 | on a well-formed network the rest is the tree without the subtree, well formed, the other servers lose just that link, and the indexes hold exactly its servers |
| `Servers.Network.Introduce` | src/servers.cpp:33-51 | a new server joins the tree at the end of its uplink's links and both indexes; the network stays well formed if and only if its name and id were not in use |
| `Servers.PruneNodes` | src/servers.cpp:144-176 | cutting a server out of a tree removes exactly its subtree |
| `Base64.B64Encode` | src/base64.cpp:85-120 | the encoding of RFC 4648, of length 4 * ceil(n / 3) |
| `Base64.TestVectors` | src/base64.cpp:85-120 | under the alphabet of the source, test vectors of RFC 4648, section 10 |
| `Base64.B64Decode` | src/base64.cpp:127-169 | the octets that the characters before the padding spell, whitespace skipped, less one trailing zero; nothing for a character outside the alphabet |
| `Base64.OneMoreSextet` | src/base64.cpp:145-164 | one turn of the decoder's state machine keeps its bytes the octets of the sextets read so far, with the last one still open |
| `Base64.EncodingIsRead` | src/base64.cpp:85-169 | the decoder finds in an encoding the sextets of the octets |
| `Base64.OctetsOfEncoding` | src/base64.cpp:127-169 | those sextets spell the octets again, followed by a zero unless the length is a multiple of 3 |
| `Base64.RoundTrip` | src/base64.cpp:85-169 | decoding an encoding, with whitespace anywhere, gives it back if and only if it is empty, its length is no multiple of 3, or its last octet is not zero; else it lacks that zero |
| `Base64.PaddingEnds` | src/base64.cpp:138-139 | what follows the first padding character is not read |
| `Base64.BadCharacter` | src/base64.cpp:141-143 | nothing is decoded if a character in front of the padding is neither of the alphabet nor whitespace |
| `Base64.SymbolAlone` | src/base64.cpp:145-169 | a single symbol is decoded to the octet it begins, unless that is zero |
| `Base64.Whitespace` | src/base64.cpp:135-136 | which characters are skipped |
| `Base64.ZeroIsLost` | src/base64.cpp:166-167 | three octets of which the last is zero come back as two |
| `Base64.SourceAlphabet` | src/base64.cpp:19-20 | the alphabet has 64 different characters, none of them padding or whitespace |
| `Base64.AlphabetInOrder` | src/base64.cpp:19-20 | capitals, small letters, digits, plus and slash |

## Left out

- Sockets, pipes, threads, mail, HTTP, SQL, LDAP and proxy scanning: input and output.
- Module loading, signals, logging, translation and module event hooks: plumbing, or code that is not here.
- Regex mode of the matcher, `ServiceReference` lookup, and Wrap/Unwrap of virtual modes, which are taken as identity.
- Glob.Match: subjects hold no NUL, since the loop reads one past the mask and takes what it finds for a terminator.
- ChannelRuns.DoExact: values are those that the modes take; the removal of a status names no bot other than the user of that name; members, their nicks and what finds them do not change between calls and flush.
- Channels.Channel.SetModeInternal: the time and setter of a mode, the order of the items of a list, mode bouncing counters, secure-ops enforcement and the deletion of a permanent channel that loses its mode are not modelled.
- ChannelRuns.Send: the server is taken to read lines as `SetModesInternal` does; one channel's changes are sent at a time, and the stacker object is emptied where the source deletes it.
- SJoin.SJoin: kicks, mode locks of registered channels and the queueing of an empty channel for deletion are hooks or follow-ups that are not modelled.
- SJoin.Convergence: users are remote and each is introduced by one message, timestamps are not zero, and lines of bursts add parameterless modes and masks, beside changes of parameter modes (`SJoin.ParamExact`); the spelling of masks that differ in case only is not part of what converges.
- DnsPackets.Pack: addresses are their octets instead of text, and the zone data of a record of type SOA is made from the configuration by whoever builds it.
- DnsPackets.UnpackResourceRecord: positions do not wrap at 65536; a TXT record without data at the very end makes the source read one octet past the input, and then fail whatever that holds.
- DnsRequests.Manager.Process: the cache is a parameter.
- Wire.RoundTrip: carriage returns and line feeds, which end lines before they get here, are not treated.
- DnsNames.UnpackFails: one direction; that the loop returns a name wherever it does not throw is `DnsNames.UnpackName`.
- Wire.Format: the debug log of refused messages.
- Access.Matches: access entries and channels are values, since a search only reads them; what an entry grants is given, and the level order of one provider that overrides the comparison is not modelled.
- References.Services.SetMask: the table that counts channels named as masks, AutoKick, cloned channels and the deletion of accounts.
- References.Services.DeleteEntry: the same table of channels named as masks.
- Identify.Registry.ModuleUnload: the order in which requests are visited.
- Servers.Network.Delete: hooks, quit reasons, and the mode set-up that a new server brings about.
- Timers.TimerManager.TickTimers: the clock is fixed, callbacks add and remove no timers, and intervals of repeating timers are positive; `Timers.TicksForEver` tells what happens otherwise.
- Base64.B64Encode: strings are sequences of octets, and the alphabet is a parameter that `Base64.SourceAlphabet` instantiates.
- `GetDeepAccessCount`, which calls itself on the same channel and is not the deep count its comment describes.
- `LineWrapper`, formatters, help texts, configuration files, the case-map table itself, `cidr`, hex, CTCP, durations, memos.
