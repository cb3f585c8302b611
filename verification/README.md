# AndroidIRCX: verified models of the IRCv3 runner and of five screen algorithms

A Dafny model of the algorithmic core of AndroidIRCX, with proofs about it:

- the client in `scripts/ircv3/live-interop.js`: line framing, the message parser, tag values, capability
  tokens, and capability negotiation over whole runs of server lines;
- the user list ordering in `src/components/UserList.tsx`;
- the message list and the clickable text in `src/components/MessageArea.tsx`;
- the composer in `src/components/MessageInput.tsx`;
- the always-encrypt marks in `src/components/ChannelTabs.tsx`.

Code that works on values is a function here. Code that updates state is a class or a method with a loop,
proved equal to a step function; the promises are then proved about that function, over every run of events.

`dafny verify dfyconfig.toml` checks the project.

## Files

| file | content |
|---|---|
| `Text.dfy`, `Sorting.dfy` | JavaScript string and array operations; the stable sort and the string comparer |
| `TagEscaping.dfy` | the five replacement passes, the IRCv3 escaping table, and when the two agree |
| `IrcMessage.dfy` | the line parser and the RFC 1459 / RFC 2812 section 2.3.1 printer |
| `Framing.dfy` | cutting the character stream into lines |
| `CapMessages.dfy` | capability tokens and CAP messages |
| `CapSession.dfy`, `CapNegotiation.dfy` | the runner's session, step by step, and what every run keeps |
| `UserList.dfy` | ranks, the flat list, the groups, searching |
| `DisplayList.dfy`, `LoadedWindow.dfy`, `ClickableText.dfy` | the message list |
| `MessageInput.dfy` | the composer's handlers, typing notices, ranges of pending nicks |
| `NickReplacements.dfy` | where the nicks picked in the composer are replaced on submit |
| `ChannelTabs.dfy`, `TabMarks.dfy`, `AsciiFolding.dfy` | the encrypt marks of the tabs |

## What the proofs turned up

- The five unescaping passes are not the left-to-right decoder of the IRCv3 Message Tags specification
  (section "Escaping values"). A value comes back from escaping exactly when no backslash stands right before
  `:`, `s`, `r` or `n`; on raw wire text the two decoders agree exactly where every backslash starts one of
  the five escapes and no doubled backslash is followed by one of those letters.
- A client whose identifier is itself a CAP subcommand word ("list", "new") has its CAP messages misread.
- A message limit of 0 shows the whole list, and so does a loaded count of 0: `slice(-0)` is `slice(0)`.
- A channel name that starts with `&` is drawn without its sign.
- Tabs of two networks can share an encrypt-cache entry exactly when one network id continues the other with
  `::channel` or `::query` and then nothing, `:` alone, or `::` and the beginning of a lower-cased name.
- The settings service strips a port suffix such as " (2)" from network names, the change listener does not:
  a tab under the other spelling keeps its old mark.
- A change notice that overlaps a lookup is overwritten when the lookup finishes, for the tabs it had answers
  for and for the marks known before; the cache entries of the latter keep the new value.
- Typing notices that find no connection break the form the server sees, unless they are missed in pairs.
- Recorded offsets are not moved while nicks are replaced on submit: of two picks of one nick with a closing
  colon the second styles the first nick again ("bob:: bob ").
- The nick pattern of the message renderer has a range from backslash to bracket where a hyphen might have
  been meant, so nicks with a hyphen are not clickable. The model follows the code.

## Conventions

- `toUpperCase` and `toLowerCase` are parameters (`upper`, `lower`). Where a result relies on something about
  them it is a named predicate (`UpperCases`, `FoldsNetworks`, `CharacterWise`), and the ASCII mapping is shown
  to have it.
- Characters are Unicode scalar values; JavaScript strings are UTF-16. The modelled code cuts only at ASCII
  characters and at white space.
- A `sort` is a stable sort by a comparer. `Sorting.AnyStableSort` shows there is only one result.
- The runner's sends are an append-only log; a run is the stretch in which its socket is open.
- An event handler is one atomic step, except the lookups of the tab bar, which start, are answered tab by
  tab, and finish or are cancelled in separate steps.

## Model

| member | source | states |
|---|---|---|
| TagEscaping.UnescapeIsScan | scripts/ircv3/live-interop.js:238-249 | the five whole-string passes, one after the other, compute the same as one scan from the left with a look-ahead past a doubled backslash |
| TagEscaping.AgreesWithStandardExactly | scripts/ircv3/live-interop.js:238-249 | the passes give what the IRCv3 decoder gives on a wire value if and only if the value is unambiguous, for every value |
| TagEscaping.UnescapeOfEscape | scripts/ircv3/live-interop.js:238-249 | what every value comes back as after IRCv3 escaping and the runner's unescaping |
| TagEscaping.ComesBackAt | scripts/ircv3/live-interop.js:238-249 | position by position, only an escape letter right after a backslash is altered on the way |
| TagEscaping.RoundTripExactlyWhenClean | scripts/ircv3/live-interop.js:238-249 | a value survives escaping and unescaping if and only if no backslash is directly followed by an escape letter |
| TagEscaping.StandardRoundTrip | scripts/ircv3/live-interop.js:238-249 | the specification's own decoder undoes the same escaping on every value, so the printer is the right partner |
| IrcMessage.ParseIrcLine | scripts/ircv3/live-interop.js:167-215 | the parser that cuts tags, prefix, command and parameters off the rest of the line refines the recursive one |
| IrcMessage.ReadParams | scripts/ircv3/live-interop.js:199-212 | the parameter loop ends because the rest shrinks, and collects exactly the parameters |
| IrcMessage.ParseOfPrint | scripts/ircv3/live-interop.js:167-236 | parsing the printed text of a message gives its prefix, its parameters, its command in upper case, and its tags with the last of equal keys winning and values as they come back |
| IrcMessage.ParsingUndoesPrintingExactly | scripts/ircv3/live-interop.js:167-236 | with distinct tag keys the very message comes back if and only if the command is upper case and every tag value is clean |
| IrcMessage.FromEntriesKeys | scripts/ircv3/live-interop.js:222-235 | the tag object has exactly the keys of the entries |
| IrcMessage.ParsePrintParse | scripts/ircv3/live-interop.js:183-214 | for every line without tags, printing the parse and parsing again gives the same message |
| IrcMessage.ParsedExactly | scripts/ircv3/live-interop.js:183-214 | a message is the parse of some line without tags if and only if all parameters but the last are free of spaces and leading colons (and non-empty after the first), and nothing else in it can be misread |
| Framing.ChunkingIsIrrelevant | scripts/ircv3/live-interop.js:693-700 | however the stream is cut into chunks, also between CR and LF, the lines and the carried text are those of one chunk |
| Framing.SentLinesArrive | scripts/ircv3/live-interop.js:693-700 | lines sent with CR LF arrive as sent, in order, under any chunking, with nothing carried over |
| CapMessages.WordsOfJoined | scripts/ircv3/live-interop.js:251-267 | the words of two payloads joined by a space are the words of the one followed by those of the other |
| CapMessages.TokensReadBack | scripts/ircv3/live-interop.js:251-267 | reading a printed capability list gives back its tokens, names and values, in order |
| CapMessages.ReadAsSentExactly | scripts/ircv3/live-interop.js:269-283 | a CAP message is read as the server sent it if and only if the client identifier before it is not a subcommand word |
| CapSession.OnlyCapEndEnds | scripts/ircv3/live-interop.js:548-573 | no other line the runner sends reads as the end of negotiation |
| CapSession.Session.constructor | scripts/ircv3/live-interop.js:469-479 | a session starts with nothing advertised, pending or carried |
| CapSession.Session.MaybeEndCapNegotiation | scripts/ircv3/live-interop.js:548-555 | the closure is the end-of-negotiation step |
| CapSession.Session.RequestAdvertisedCaps | scripts/ircv3/live-interop.js:557-573 | the closure is the request step, its loop adding every wanted capability to the pending ones |
| CapSession.Session.HandleCap | scripts/ircv3/live-interop.js:575-612 | the closure with its token loops is the CAP step, whole state included |
| CapSession.Session.HandleLine | scripts/ircv3/live-interop.js:614-655 | the closure is the line step: PING, CAP and 001 |
| CapSession.Session.OnData | scripts/ircv3/live-interop.js:693-700 | one data event handles exactly the framed lines, in order, and carries the rest |
| CapNegotiation.EveryRunIsSound | scripts/ircv3/live-interop.js:548-612 | after every run of server lines: the end was sent at most once and not before the last LS; last LS seen with nothing pending implies it was sent; every requested capability is pending, acknowledged or rejected, and every pending one was requested |
| CapNegotiation.EverySentLineIsRight | scripts/ircv3/live-interop.js:548-602 | every logged line has its moment in the run: the end of negotiation with the last LS seen and nothing pending, a request with all its names advertised, CAP LIST after registration, MONITOR L with monitor acknowledged |
| CapNegotiation.RequestIsExact | scripts/ircv3/live-interop.js:557-573 | a request names all wanted capabilities that are advertised and no other, in sorted order |
| CapNegotiation.LastValueWins | scripts/ircv3/live-interop.js:580-585 | an advertised capability has the value of its last token; others keep theirs |
| CapNegotiation.AnswersAreRemembered | scripts/ircv3/live-interop.js:591-607 | the acknowledged, rejected and listed capabilities are those named by the ACK, NAK and LIST lines of the run |
| CapNegotiation.PingIsAnswered | scripts/ircv3/live-interop.js:621-624 | a printed PING is answered with its own token and changes nothing else |
| CapNegotiation.AnswersEndNegotiation | scripts/ircv3/live-interop.js:548-602 | after the last LS, over any lines but a further LS, the end of negotiation has been sent if and only if the ACK and NAK lines so far name every pending capability |
| CapNegotiation.LastAnswerEndsNegotiation | scripts/ircv3/live-interop.js:548-602 | it is sent by exactly the line that settles the last pending capability |
| CapNegotiation.AnswersShrinkPending | scripts/ircv3/live-interop.js:591-602 | a line makes the pending set smaller if and only if it settles one of it, and never larger |
| CapNegotiation.SplitListIsWholeList | scripts/ircv3/live-interop.js:251-283 | a list cut over any number of LS lines, starred but for the last, leaves the whole state, values and single request included, as one unsplit line does |
| CapNegotiation.SessionIgnoresChunking | scripts/ircv3/live-interop.js:614-700 | two chunkings of one stream leave the session in the same state with the same lines sent |
| Sorting.SortIsStable | src/components/UserList.tsx:373-412 | the sort is in order and keeps ties in their old order, for every comparer |
| Sorting.AnyStableSort | src/components/UserList.tsx:373-412 | a sequence is a stable sort of another if and only if it is this one |
| Sorting.FoldedComparerIsComparer | src/utils/localeSafe.ts:50-62 | the case-insensitive string comparer is consistent and transitive whatever lower-casing does |
| UserList.FiveWaysAgree | src/components/UserList.tsx:282-303 | for every list of mode letters the prefix chain, the colour chain, the reduce and the minimum name the best rank among them |
| UserList.GroupIsRank | src/components/UserList.tsx:352-400 | the group is the best rank the modes give, and the sort priority is that rank's |
| UserList.GroupUsers | src/components/UserList.tsx:334-378 | pushing users into groups and sorting each yields, per rank, the sorted users of that rank |
| UserList.GroupsAreFlatSort | src/components/UserList.tsx:334-413 | the sorted groups one after the other are the flat list sorted by rank and nick, ties included |
| UserList.ViewsAgreeExactly | src/components/UserList.tsx:334-413 | the grouped and the flat view agree if and only if the list is within the skip-sort threshold or already in order |
| UserList.ListViewsAgreeExactly | src/components/UserList.tsx:334-413 | the same for the list's own comparer, with no assumption on lower-casing |
| UserList.SearchedViewsAgreeExactly | src/components/UserList.tsx:415-481 | under every search query the two views agree if and only if the list is within the threshold or what the query finds is already in order |
| DisplayList.SurvivorsAreASelection | src/components/MessageArea.tsx:2790-2846 | the three filters keep exactly the messages that pass all of them, each once, in order |
| DisplayList.DisplayIsASelection | src/components/MessageArea.tsx:2783-2853 | the rows are the newest survivors, in order: the last limit of them with cleanup on and a limit of at least 1 |
| DisplayList.ElidedSendersAreShownAbove | src/components/MessageArea.tsx:2855-2879 | a row without its sender has as nearest ungrouped row above an ordinary non-ACTION message of the same sender |
| LoadedWindow.Window.Effect | src/components/MessageArea.tsx:2903-2927 | the effect is the correction step and leaves the count in range |
| LoadedWindow.Window.HandleEndReached | src/components/MessageArea.tsx:3044-3054 | the end-reached handler is the loading step |
| LoadedWindow.StepsAddOlderRows | src/components/MessageArea.tsx:2897-2936 | with positive settings, after any number of end-reached steps from a settled count: the count is settled and the effect leaves it, the rendered rows are the newest loaded ones, and those rendered before stay, with exactly the next older ones in front |
| LoadedWindow.AllLoadedExactly | src/components/MessageArea.tsx:3044-3054 | all rows are loaded after so many steps if and only if that many chunks cover the missing rows |
| LoadedWindow.StepsNeeded | src/components/MessageArea.tsx:3044-3054 | the missing rows divided by the chunk, rounded up, is the exact number of steps |
| ClickableText.TokensAreRuns | src/components/MessageArea.tsx:632 | tokens are the maximal runs of white space and of other characters |
| ClickableText.PressableExactly | src/components/MessageArea.tsx:644-770 | a piece is what is drawn for a word if and only if it is the first link to the end of the word, else the name from the first channel sign to the first separator without its status characters, else the first place of the sender's identity, else the only run of nick characters when known, else the plain word |
| ClickableText.NickPressedExactly | src/components/MessageArea.tsx:728-765 | a nick standing alone can be pressed if and only if it is known, holds nick characters only, and no link, clickable channel or identity takes precedence |
| ClickableText.HyphenatedIsPlain | src/components/MessageArea.tsx:728-738 | a nick with a hyphen between nick characters is drawn as plain text, known or not |
| ClickableText.DrawsTheTextExactly | src/components/MessageArea.tsx:632-773 | the drawn pieces read as the text if and only if no word loses a leading ampersand of a clickable channel |
| ClickableText.DrawsTextWithoutAmpersand | src/components/MessageArea.tsx:632-773 | every text without an ampersand is drawn as written |
| MessageInput.ApplyPendingNickReplacements | src/components/MessageInput.tsx:378-401 | the replacement loop is the fold of single replacements |
| MessageInput.Composer.HandleChangeText | src/components/MessageInput.tsx:535-583 | the change handler is the edit step: pending nicks, typing flag, timer |
| MessageInput.Composer.HandleSubmit | src/components/MessageInput.tsx:403-428 | the submit handler is the submit step |
| MessageInput.Composer.FireTimer | src/components/MessageInput.tsx:562-567 | the timer callback is the fire step |
| MessageInput.Composer.Unmounted | src/components/MessageInput.tsx:503-512 | the cleanup is the unmount step |
| MessageInput.Composer.PickSuggestion | src/components/MessageInput.tsx:978-1045 | taking a nick suggestion is the pick step, shifting the later ranges |
| MessageInput.TypingProtocol | src/components/MessageInput.tsx:403-576 | over every run the announced statuses have the form (active (paused or done))*, open at most at the end; while mounted the typing flag is up if and only if one pause timer is pending, and none is pending after unmount |
| MessageInput.ServerSeesFormExactly | src/components/MessageInput.tsx:362-376 | over every run what the server receives has the announced form if and only if before each delivered status an even number found no connection; it then ends with the composer's own open or closed notice if and only if that number is even in all |
| MessageInput.RangesStayDisjoint | src/components/MessageInput.tsx:1002-1027 | over every run of picks, edits and submits the pending ranges are pairwise disjoint and as long as their texts |
| NickReplacements.PicksAreSubmittedExactly | src/components/MessageInput.tsx:378-417 | after every run of picks and typing at the end, however many nicks are pending, they stand in order, and a submit styles each in its own place if every turn of the loop lands there, with closing styles if and only if |
| NickReplacements.PickThenSubmit | src/components/MessageInput.tsx:978-1027 | a nick picked with any others pending joins them at the end, and all are submitted in their own places if every turn lands there |
| NickReplacements.SubstitutedExactly | src/components/MessageInput.tsx:378-401 | for any list of replacements in order, with styled forms that close with a character of their own, the submitted text is the simultaneous substitution if and only if at every turn the recorded offset holds the text at its shifted place, or holds something else and the first occurrence is that place |
| NickReplacements.OnceEachIsSubstituted | src/components/MessageInput.tsx:378-401 | it is the simultaneous substitution whenever each display text stands at most once at its turn |
| NickReplacements.SecondPickLandsOnFirst | src/components/MessageInput.tsx:382-397 | it is not after two picks of "bob" with a closing colon: the second turn styles the first nick again |
| NickReplacements.OffsetsDoNotMatter | src/components/MessageInput.tsx:378-401 | when each display text stands at most once at its turn, the submitted text does not depend on recorded offsets |
| NickReplacements.OffsetMattersExactly | src/components/MessageInput.tsx:382-397 | for a styled form with a character new to the text, all offsets give one result if and only if the display text stands at most once |
| ChannelTabs.TabBar.TabsChanged | src/components/ChannelTabs.tsx:152-211 | the tab-list effect is the tabs step: cancel, show what is cached, look up the rest |
| ChannelTabs.TabBar.LookupFinished | src/components/ChannelTabs.tsx:186-197 | the continuation of a lookup is the finish step, and a cancelled one does nothing |
| ChannelTabs.TabBar.AlwaysEncryptChanged | src/components/ChannelTabs.tsx:213-248 | the change listener is the notice step |
| TabMarks.KeyTellsTheTab | src/components/ChannelTabs.tsx:52-53 | on one network, or on two whose ids do not continue each other, a cache key determines network, kind and folded name |
| TabMarks.KeysCollideExactly | src/components/ChannelTabs.tsx:52-53 | for a character-wise lower-casing two networks have a cache key in common if and only if one id continues the other with "::channel" or "::query" followed by nothing, by ":" alone, or by "::" and the beginning of a lower-cased name |
| TabMarks.MarksAreRight | src/components/ChannelTabs.tsx:152-248 | after every orderly run, with no lookup outstanding, mark, cache entry and setting are equal for every open channel and query tab |
| TabMarks.OrderlyRunsAreRight | src/components/ChannelTabs.tsx:152-248 | what every step keeps, also while a lookup is outstanding |
| TabMarks.NoticeKeepsRightExactly | src/components/ChannelTabs.tsx:213-248 | with no lookup outstanding a notice leaves cache and marks right if and only if it reaches every cached tab that reads the changed setting, or the value is the old one |
| TabMarks.OtherSpellingKeepsOldMark | src/services/ChannelEncryptionSettingsService.ts:20-30 | a tab under another spelling of the network is right after a change if and only if the value did not change |
| TabMarks.OtherSpellingExists | src/services/ChannelEncryptionSettingsService.ts:20-30 | a port suffix makes such a spelling |
| TabMarks.NoticeDuringLookupExactly | src/components/ChannelTabs.tsx:186-231 | after a notice during a lookup, once the remaining answers are in and it has finished, the mark of every open channel or query is right if and only if its setting is not the changed one, or kept its value, or the tab was still without its answer |
| TabMarks.CacheOutlivesMark | src/components/ChannelTabs.tsx:186-231 | the cache entry of a tab that was not being looked up keeps the new value then, while its mark falls back |
| TabMarks.LostNotice | src/components/ChannelTabs.tsx:186-197 | such an overlap is reached, for every channel or query tab, with a wrong mark in the end |
| AsciiFolding.AsciiLowerFoldsNetworks | src/services/ChannelEncryptionSettingsService.ts:20-30 | ASCII lower-casing has what the mark results rely on |

## Left out

- `live-interop.js`: sockets, TLS, WebSocket, command-line and fixture loading, the timeout and `finish` with
  its summary, and the parts of a result that do not feed back (ISUPPORT tokens, errors, warnings).
- NickReplacements.SubstitutedExactly: asks that a styled form be no shorter than its nick and close with another
  character; without that a turn elsewhere can give the same text (`SameTextElsewhere`), and one direction is
  left (`LandedIsSubstituted`).
- NickReplacements.PicksAreSubmittedExactly: an edit before a picked nick leaves recorded offsets behind; what
  the loop then does is `ApplyAll`, which `OffsetsDoNotMatter` is about.
- MessageInput.Composer.PickSuggestion: command, alias and channel suggestions only set the text; the `SetText` event
  stands for them and for a prefilled message.
- Rendering, styles, gestures, translation, clipboard and every other user interface concern.
- Text with IRC formatting codes, which another formatter draws.
- Away recording, suggestion ranking, attachments and the nick style templates of the composer; a pick
  carries its display text and its styled text.
- Reversing the visible rows for the list component, and loading older history from storage or server.
- Chunked loading and the grouping threshold of the user list, which only choose what to render.
- A failed storage read in the tab bar: lookups are answered with the stored setting.
- Multi-letter mode strings in the user list: a mode is one letter.
