# Verified models of Godot Didi

This project models the parts of Didi whose correctness cannot be read off one function body, and proves
what their comments, tests and documentation promise. Everything is Dafny; `dafny verify dfyconfig.toml`
checks all of it.

What is modelled, by component:

- **ConfigFile reader** (`Utf8`, `ConfigString`, `ConfigGrammar`, `ValueWalking`, `ValueAcceptance`, `ConfigScan`,
  `ScanInvariants`, `ScanValues`, `ScanTopLevel`, `ScanLastLine`, `ConfigRoundTrip`, `ConfigTidying`,
  `ConfigFileEnd`, `ConfigLoading`, `ConfigRows`, `ConfigNames`, `ScanComments`, `ConfigNotes`, `ValueModes`,
  `ConfigCutShort`, `StringWriting`, `ValueForms`, `ValueReading`, `ValueRefusals`). The loops that read
  `project.godot` are methods proved against specification functions. Three grammars with writers of their own are
  the independent references: values in every layout of blanks and line breaks, which the scan gives back as written
  and the check accepts; the pieces a string is written with, which every text is made of; and the forms a value
  text can have, with what is wrong with each, which every text has one of and the check tells the first fault of.
- **IPC endpoint** (`IpcFraming`, `IpcRequests`, `IpcWire`, `IpcHandles`). Two machines of interleaved steps. In
  `IpcRequests` one client, its connections and the server exchange bytes in pieces of any size, with
  deadlines, drops and reconnects anywhere. In `IpcHandles` four slot threads, `start` and `stop` share a
  table of descriptors whose numbers the whole process reuses. Results hold after every allowed sequence of
  steps from the start; beside what never happens they say what can always still happen.
- **Scene edits** (`NodeTree`, `NodeEdits`, `NodeCopies`, `NodeOwnership`, `SceneLikeness`, `SceneHistory`, `EditLinks`,
  `SceneSessions`, `SceneEditor`), **viewport isolation** (`ViewportIsolation`) and the **hierarchy walk**
  (`SceneHierarchy`). The edited scene is an unbounded tree; the engine is a small specification of add, remove,
  move, set owner and set visible. Results about undo and redo hold over every run of an editing session, with
  any branches outside the tree.
- **Data structures and codecs**: the capture cache (`CaptureCache`, `CacheRecency`), the log queue (`ConsoleLog`),
  Base64 against RFC 4648 section 4 (`Base64`, `Base64Laws`), SHA-256 against FIPS 180-4 and its published example
  (`Sha256`, `Sha256Example`), image comparison (`ImageSimilarity`, `ImageDiff`, `ImageHashes`, `ImageLaws`), the
  `$ref` closure (`SchemaClosure`) and contract overlays (`ContractOverlay`).

Conventions. A `char` of a `string` stands for one byte of a text file. A C++ `string_view` is a text with
bounds `[lo, hi)`. Calls into the engine, the operating system, the clock and the JSON library are
parameters or nondeterministic choices: which calls fail, how many bytes move, what the handler answers.
Integers are unbounded unless a width is written out; widths are written out where they can be reached (the
32-bit frame length, the 32-bit Base64 accumulator, SHA-256 words and its 64-bit length).

Where the code does not do what it is for, the model keeps the code and says exactly when it does:

- A top-level typed container with a line break between its name and the bracket of its type, such as
  `a=Array` above `[int]()`, is taken to end at that bracket: `awaiting_call` is cleared at line 245 of
  `src/common/config_file_syntax.cpp` before line 283 reads it. Every other written value is scanned back as
  written (`ConfigRoundTrip.ScanInvertsPrint`).
- Undo after a remove gives back an owner only where `NodeEdits.UndoOfRemoveRestores` says: a node of the branch
  owned by something between the root and the branch stays without an owner. Such a remove is accepted for a
  node of an instance with Editable Children, and then the owner is always lost
  (`NodeOwnership.EditableIsNotRestorable`; `NodeOwnership.UndoLosesOwner` is the smallest scene). Every later edit
  refuses that node (`NodeOwnership.UndoneIsRefused`).
- An overlay loses a member that becomes null and takes the text `<absent>` for a deletion
  (`ContractOverlay.AppliedGivesOther` says when it does neither; `ContractOverlay.NullIsLost` and
  `ContractOverlay.AbsentIsTakenForGone` are the smallest recordings).
- The walk of a value stops at its end within the depth cap only where what follows does not run on from it, as
  a second digit does from a number (`ValueAcceptance.StopsExactlyWhen`).

## Model

| member | source | states |
|---|---|---|
| Utf8.DecodeUtf8TheWayGodotDoes | src/common/config_file_syntax.cpp:30-77 | the byte loop gives back the decoding defined from RFC 3629 sections 3 and 4 |
| Utf8.CheckSequence | src/common/config_file_syntax.cpp:42-67 | how many bytes the sequence at a place takes and whether they are a character, for every lead byte and every short, overlong, surrogate or broken tail |
| Utf8.TakenIsTheGrammar | src/common/config_file_syntax.cpp:42-67 | a sequence is taken as a character exactly when the grammar of RFC 3629 section 4 has one there |
| Utf8.DecodeUtf8Theorem | src/common/config_file_syntax.cpp:30-77 | the output is always well-formed UTF-8, at most three times as long, and equal to the input exactly when the input is well formed and does not begin with a byte order mark |
| Utf8.DecodedNeverPrependsBom | src/common/config_file_syntax.cpp:30-77 | no decoding puts a byte order mark at the front of text that had none |
| Utf8.DecodedAfterWellFormed | src/common/config_file_syntax.cpp:30-77 | a well-formed beginning passes through and does not change how the rest is decoded |
| Utf8.DecodeResumesAfterBadByte | src/common/config_file_syntax.cpp:68-74 | a byte that begins no character becomes one replacement character and decoding goes on with the next byte |
| ConfigString.HexDigits | src/common/config_file_syntax.cpp:125-137 | reads the digits of a hex escape up to the first that is none |
| ConfigString.ReadEscape | src/common/config_file_syntax.cpp:112-164 | one backslash escape does to the reading what its token says: the byte it appends, the surrogate it leaves open or completes, the problem it is refused with, and where it ends |
| ConfigString.DecodeString | src/common/config_file_syntax.cpp:88-170 | the loop computes the reading defined token by token |
| ConfigString.DecodeStringTheorem | src/common/config_file_syntax.cpp:88-170 | where the string ends and whether it closed follow from its tokens; a closed string has a problem exactly when a hex escape is short or surrogate escapes do not pair adjacently; without a problem the text is the decoding of the bytes the tokens stand for |
| ConfigString.EscapeRoundTrip | src/common/config_file_syntax.cpp:88-170 | decoding inverts the escaping of quotes and backslashes for every well-formed UTF-8 text without a leading byte order mark |
| ConfigString.EscapedReadsBetween | src/common/config_file_syntax.cpp:88-170 | an escaped text between quotes is read to its closing quote whatever stands around it |
| StringWriting.StringSpells | src/common/config_file_syntax.cpp:88-170 | a string is written in pieces: plain bytes, escapes by letter, and hex escapes of four or six digits in either case; wherever it stands the decoder stops where the pieces do, tells the first thing wrong with them, and otherwise gives the text they spell; a hex escape stands for its number, or for a space where that is zero or above 0xFF, and the two halves of a pair for one space |
| StringWriting.EveryStringIsWritten | src/common/config_file_syntax.cpp:88-170 | every text, from any place in it, is such a writing, so the result above is about every input |
| StringWriting.AnyWritingReadsBack | src/common/config_file_syntax.cpp:88-170 | however the bytes of a text are written, plainly, by letter or by number, the text comes back, if and only if it is well-formed UTF-8 without a leading byte order mark |
| ValueWalking.ValueWalk.SkipOverString | src/common/config_file_syntax.cpp:433-440 | moves past a quoted string as the string decoder does, or refuses it |
| ValueWalking.ValueWalk.SkipOverBrackets | src/common/config_file_syntax.cpp:441-460 | moves past balanced brackets, strings included, or refuses |
| ValueWalking.ValueWalk.ReadValue | src/common/config_file_syntax.cpp:461-531 | one value at a depth: ends where the specification ends and refuses what it refuses; the position never moves backward |
| ValueWalking.ValueWalk.ReadArray | src/common/config_file_syntax.cpp:533-560 | the elements of an array and its separators |
| ValueWalking.ValueWalk.ReadDictionary | src/common/config_file_syntax.cpp:562-596 | the pairs of a dictionary and its separators |
| ValueWalking.ValueProblem | src/common/config_file_syntax.cpp:708-716 | the whole check of one value text |
| ValueForms.SoundIs | src/common/config_file_syntax.cpp:412-596 | a form, written down by a grammar of its own, has no fault exactly when none of its parts has one |
| ValueRefusals.EveryTextHasAForm | src/common/config_file_syntax.cpp:461-596 | every text is spaces and a form of that grammar, to the first thing wrong or the end of the value |
| ValueRefusals.TheFirstFaultIsTold | src/common/config_file_syntax.cpp:461-596 | whatever form a text has, the check tells the first fault of that form and nothing else |
| ValueRefusals.NoProblemExactlyWhen | src/common/config_file_syntax.cpp:708-716 | a text has no problem if and only if, behind its spaces, it begins with a sound form: a value of the loose grammar, or the beginning of one that the text ends in |
| ValueRefusals.RefusedExactlyFor | src/common/config_file_syntax.cpp:461-596 | for each reason, a text is refused for it if and only if it has a form whose first fault that is: a name that is no keyword and is not called, an element, key or pair without its separator, a character no value begins with, a lone `&` or `@`, no value at all, or a bad string |
| ValueRefusals.NamesAloneAreWords | src/common/config_file_syntax.cpp:491-515 | a name with no bracket behind it is a value when it is one of the seven words and is refused under its own name otherwise |
| ValueAcceptance.WalkAcceptsPrinted | src/common/config_file_syntax.cpp:461-596 | on the printed form of any grammar value, anywhere in a text where what follows does not run on from a number or a keyword, the walk has no problem; to nesting depth 32 it stops exactly at the end of the value, and beyond it the depth cap carries it to the end of the text |
| ValueAcceptance.StopsExactlyWhen | src/common/config_file_syntax.cpp:461-531 | to nesting depth 32 the walk stops exactly at the end of a value without a problem if and only if, behind a number, a separator or the end follows, and behind a keyword neither more of a name nor a call; behind every other value anything may follow |
| ValueAcceptance.PrintedHasNoProblem | src/common/config_file_syntax.cpp:708-716 | no printed value has a problem, however deep |
| ConfigScan.AdvanceValue | src/common/config_file_syntax.cpp:218-352 | one line of value text, from the state the line above left: whether the value ended, where, and the state it leaves |
| ConfigScan.AppendKeyTokens | src/common/config_file_syntax.cpp:356-390 | the key tokens of a line joined onto the pending key, and the offset of the equals sign |
| ConfigScan.AppendValueText | src/common/config_file_syntax.cpp:406-411 | a trimmed line joined onto the value text, blank lines dropped |
| ConfigScan.WalkLine | src/common/config_file_syntax.cpp:247-352 | the loop over one line's characters, string and bracket state in place |
| ConfigScan.ReadKey | src/common/config_file_syntax.cpp:658-690 | one key of a line and as much of its value as the line holds, and whether the line goes on |
| ConfigScan.ReadRest | src/common/config_file_syntax.cpp:646-690 | the inner loop that reads on in the middle of a line after a value ends |
| ConfigScan.ReadLine | src/common/config_file_syntax.cpp:612-690 | one raw line, in a value or not |
| ConfigScan.ScanConfigFile | src/common/config_file_syntax.cpp:601-706 | the whole scan, line after line, is the fold the other results are about |
| ScanInvariants.AdvanceStaysInside | src/common/config_file_syntax.cpp:218-352 | on any text the end of a line of value text is past the line only while unfinished in a string whose line ends in a backslash; a finished value ends inside |
| ScanInvariants.PendingOnlyPrefixes | src/common/config_file_syntax.cpp:356-390 | the offset of the equals sign does not depend on the pending key, which only stands in front of what is read |
| ScanInvariants.ScanIsOrdered | src/common/config_file_syntax.cpp:601-706 | in the scan of any text every entry has key_line <= line <= value_end_line <= the next entry's line, and headers come in line order |
| ScanInvariants.ScanKeeps | src/common/config_file_syntax.cpp:601-706 | what was registered before the entry being read is never changed by anything that follows |
| ScanValues.PassesValue | src/common/config_file_syntax.cpp:247-352 | inside brackets every written value is passed over, line breaks included, without any effect but the line it ends on |
| ScanTopLevel.ReadsValue | src/common/config_file_syntax.cpp:218-352 | from just past the equals sign the scan reads every written value to its end, except a typed container with a line break before its type |
| ScanTopLevel.TypedAfterBreakIsCut | src/common/config_file_syntax.cpp:229-290 | that container is read as finished at the bracket that closes its type |
| ConfigRoundTrip.ScanInvertsPrint | src/common/config_file_syntax.cpp:601-706 | scanning a printed file gives back exactly its sections, keys, value texts and line spans, complete and with no trailing key, if and only if no typed container has a line break between its name and its type |
| ConfigRoundTrip.BreakBeforeTypeIsCut | src/common/config_file_syntax.cpp:229-290 | the smallest file for which it does not |
| ConfigRows.ReadsEveryRow | src/common/config_file_syntax.cpp:601-706 | the scan of text row by row: several settings in one row, values over any number of lines, quoted keys, keys that go on over lines, headings and comments behind a value, carriage returns; every entry and heading comes out with its key, the key on its line, its section, its lines and its text, and the scan is complete |
| ConfigNames.NameEndsOnItsLine | src/common/config_file_syntax.cpp:229-245 | a bare name at the end of a line is the whole value when the lines below do not call it, and those lines are read as if it had ended there |
| ScanComments.ScanGoesOn | src/common/config_file_syntax.cpp:601-706 | scanning two texts joined by a newline is scanning the second from the state the first leaves |
| ScanComments.CommentIsIdle | src/common/config_file_syntax.cpp:247-352 | a comment behind any line that leaves a bracket open, and no string, changes nothing that is read |
| ConfigNotes.NoteInValueIsIdle | src/common/config_file_syntax.cpp:247-352 | a comment at any line break inside the brackets of a written value changes nothing that is read of the file |
| ScanLastLine.FinalNewlineIsIdle | src/common/config_file_syntax.cpp:601-706 | for any text a newline at its end changes nothing that is read: not the entries, not the line a value ends on, not whether the last value is complete |
| ConfigFileEnd.ScanInvertsPrintWithoutNewline | src/common/config_file_syntax.cpp:601-706 | the round trip, if and only if, for a file whose last line has no newline |
| ConfigFileEnd.EndsInIdentifier | src/common/config_file_syntax.cpp:692-704 | a file that ends in an identifier that could still be called, with a newline behind it or not, is complete, and the identifier is its last entry's value |
| ConfigCutShort.CutValueIsIncomplete | src/common/config_file_syntax.cpp:692-734 | a file that ends inside a string or an open bracket of its last value, said of the grammar and not of the scan, is incomplete, with a newline at its end or not: the entries before are the printed ones, the last has the key, and the verdict is that its value is unterminated |
| ConfigNames.MissingValueIsIncomplete | src/common/config_file_syntax.cpp:692-734 | so is a file that ends behind the equals sign of its last key |
| ConfigCutShort.EndsInKey | src/common/config_file_syntax.cpp:692-705 | a file that ends in key text without an equals sign is complete and has a trailing key, and what stands before is read as printed |
| ConfigRoundTrip.EndedText | src/common/config_file_syntax.cpp:406-411 | the value text of an entry is its lines, each trimmed, joined with newlines, and its end line counts the line breaks |
| ConfigTidying.KeptTextIsWritten | src/common/config_file_syntax.cpp:406-411 | the text kept of a written value, whatever its layout, is the printed form of a written value |
| ConfigRoundTrip.ValueTextIsExact | src/common/config_file_syntax.cpp:406-411 | the text kept is the text written exactly when no line begins or ends with a blank and none is empty |
| ConfigLoading.LoadFailure | src/common/config_file_syntax.cpp:718-749 | which entry the verdict names and why |
| ConfigLoading.LoadsExactlyWhen | src/common/config_file_syntax.cpp:718-749 | there is no failure exactly when the scan is complete and no value has a problem; otherwise the last key or the first bad one is named |
| ConfigLoading.WrittenFileLoads | src/common/config_file_syntax.cpp:601-749 | every printed file that is read whole loads, whatever the layout of its values, with and without a newline at its end |
| IpcFraming.LengthRoundTrip | include/didi/common/protocol.hpp:68-85 | the length prefix decodes to the length |
| IpcFraming.LengthsAreCanonical | include/didi/common/protocol.hpp:68-85 | every four bytes are the prefix of exactly one length |
| IpcFraming.ReadsFrameBack | include/didi/common/protocol.hpp:68-147 | a frame followed by anything reads back as its payload and leaves the stream at the next frame |
| IpcFraming.PartOfFrameIsShort | include/didi/common/protocol.hpp:126-147 | no proper beginning of a frame is taken for a frame |
| IpcFraming.ReadsAllFramesBack | include/didi/common/protocol.hpp:68-147 | frames sent one behind another read back one by one |
| IpcFraming.GrowFrameBuffer | include/didi/common/protocol.hpp:94-103 | room for the next chunk, never past the frame |
| IpcFraming.Socket.ReadExact | src/common/ipc_channel_win32.cpp:1131-1165 | all the bytes asked for or a proper part of them; what was read and what is left are what there was |
| IpcFraming.Socket.WriteExact | src/common/ipc_channel_win32.cpp:1167-1189 | all of the buffer went out or a failure that stopped short of its end |
| IpcFraming.Socket.ReadFramePayload | include/didi/common/protocol.hpp:125-147 | rejects before reading, completes with exactly the claimed bytes, and never commits more than twice what arrived plus a chunk |
| IpcWire.FaithfulWireExists | src/common/ipc_channel_win32.cpp:1601-1645 | messages can be written as the run results ask: read back as written, and never taken for a message when cut short |
| IpcRequests.AnswersTheRequest | src/common/ipc_channel_win32.cpp:1601-1645 | a request read whole leads to one run of that very request or to none, and to a response that says which |
| IpcRequests.ServerReadKeeps | src/common/ipc_channel_win32.cpp:1572-1600 | however the bytes arrive the server's reading stays inside the frame the client is sending |
| IpcRequests.ConcludedKeeps | src/common/ipc_channel_win32.cpp:1284-1310 | a response the client accepts was the whole response on this connection, for this request, with nothing left behind it |
| IpcRequests.StepKeepsInv | src/common/ipc_channel_win32.cpp:1216-1314 | every step of client and server keeps the invariant |
| IpcRequests.KnownFailureNeverRan | src/common/ipc_channel_win32.cpp:1216-1265 | over every run, a failure whose outcome is not unknown is a request the handler never ran, then or later |
| IpcRequests.ReturnedIsWhatTheHandlerSaid | src/common/ipc_channel_win32.cpp:1284-1310 | over every run, a returned result is what the handler made of that very request, run exactly once; the one other answer is that no handler is registered, for a request never run |
| IpcRequests.WholeAnswerIsReturned | src/common/ipc_channel_win32.cpp:1284-1310 | over every run, once the client has the whole response to its current request the one step it can take returns what the response says, result or error, and that is what the handler made of the request |
| IpcRequests.AnswersCanComeBack | src/common/ipc_channel_win32.cpp:1216-1314 | from every reachable state with an idle client, for every body that fits and everything a handler may do with it, some run asks it, runs it once and returns that answer |
| IpcRequests.UnknownExactlyWhenWritten | src/common/ipc_channel_win32.cpp:1261-1296 | over every run, a failure is reported as unknown if and only if the frame of its request had been written to its end |
| IpcRequests.EachRequestRunsAtMostOnce | src/common/ipc_channel_win32.cpp:1572-1649 | over every run no request is run twice and none in other words than it was asked in |
| IpcRequests.StreamStaysAligned | src/common/ipc_channel_win32.cpp:1572-1600 | over every run a reading server stands at a frame boundary: what it has read and what is on its way are the beginning of one frame |
| IpcRequests.UnknownMeansUnknown | src/common/ipc_channel_win32.cpp:1267-1296 | from every reachable state with an idle client and for every request that fits a frame, two runs look the same to the client, and the handler ran the request in one and not in the other |
| IpcHandles.StepKeepsInv | src/common/ipc_channel_win32.cpp:1458-1662 | every step of the slots, of start and stop and of the rest of the process keeps the invariant |
| IpcHandles.ClosesHeld | src/common/ipc_channel_win32.cpp:1650-1659 | closing a descriptor one holds is its connection's first close and no other's |
| IpcHandles.EveryConnectionIsAccountedFor | src/common/ipc_channel_win32.cpp:1504-1662 | over every run no connection is closed twice, and an open one is held by exactly one slot or by stop under the number it was accepted as |
| IpcHandles.StopLeavesNothingOpen | src/common/ipc_channel_win32.cpp:1458-1495 | once stop has returned every connection ever accepted was closed exactly once and no descriptor of the server is open |
| IpcHandles.EveryCallHitsItsOwn | src/common/ipc_channel_win32.cpp:1475-1494 | with numbers reused at will, stop shuts down and closes only connections it took that are still open, a slot touches only its own, and accept meets the listener |
| IpcHandles.OthersAreLeftAlone | src/common/ipc_channel_win32.cpp:1458-1662 | no step of the server touches a descriptor of the rest of the process |
| IpcHandles.OneHandlerAtATime | src/common/ipc_channel_win32.cpp:1618-1640 | at most one slot is in the handler, for a connection of its own that is still open, and none once stop has returned |
| IpcHandles.EveryRequestIsHandled | src/common/ipc_channel_win32.cpp:1601-1645 | over every run and for each slot, as many requests were handled as were read, but for one exactly while the slot waits for its turn or is in the handler |
| IpcHandles.NoRequestIsDropped | src/common/ipc_channel_win32.cpp:1601-1662 | over every run a slot leaves or gives up its connection only when every request it read was handled |
| IpcHandles.AnyRequestCanBeHandled | src/common/ipc_channel_win32.cpp:1601-1645 | from every reachable state in which a slot is reading some run has it in the handler on that same connection, and then serving it again |
| IpcHandles.AnySlotCanServe | src/common/ipc_channel_win32.cpp:1504-1600 | from every reachable state of a running server some run has a given slot reading from a client |
| IpcHandles.StopComesToAnEnd | src/common/ipc_channel_win32.cpp:1458-1495 | until stop has returned some thread can move, and every move brings it strictly nearer |
| NodeTree.SetOwnersMarks | src/gdextension/bridge_node_edits.cpp:148-160 | owners set one call after another come to the same as all at once |
| NodeTree.MarkedBelow | src/gdextension/bridge_node_edits.cpp:148-160 | giving owners inside a branch changes nothing outside it |
| NodeEdits.CollectNodesOwnedBy | src/gdextension/bridge_node_edits.cpp:9-40 | the stack walk finds the nodes of the branch the root owns |
| NodeEdits.ChosenPicks | src/gdextension/bridge_node_edits.cpp:58-87 | in trees of one shape the ids chosen pick exactly the counterparts of what the root owns |
| NodeEdits.AddsAndMovesBack | src/gdextension/bridge_node_edits.cpp:136-139 | added last and moved to its old index a branch stands where it stood, whatever else is outside the tree |
| NodeEdits.MarkingRestores | src/gdextension/bridge_node_edits.cpp:140-160 | giving the root its nodes back restores the branch exactly when each node was owned by the root, by nobody or by an ancestor inside the branch |
| NodeEdits.UndoOfRemoveRestores | src/gdextension/bridge_node_edits.cpp:130-167 | whatever branches are outside the tree, undoing a remove gives back the scene, child order and every owner, if and only if each node of the branch was owned by the root, by nobody or inside the branch |
| NodeOwnership.EditableIsNotRestorable | src/gdextension/godot_bridge.cpp:1789-1850 | of the nodes a remove accepts, those owned by an instance with Editable Children never get their owner back |
| NodeOwnership.UndoLosesOwner | src/gdextension/bridge_node_edits.cpp:130-167 | the smallest scene on which an accepted remove and its undo lose an owner |
| NodeOwnership.UndoneIsRefused | src/gdextension/bridge_node_edits.cpp:140-148 | a node whose owner an undo lost is refused by every later edit, whatever is made editable |
| NodeCopies.RedoOfRemoveRemoves | src/gdextension/bridge_node_edits.cpp:130-167 | redo after undo takes the branch out again, whatever the undo could not restore |
| NodeCopies.VisitsWhatMatches | src/gdextension/bridge_node_edits.cpp:58-87 | the paired walk succeeds exactly on trees of one shape and then chooses the counterparts of what the root owns |
| NodeCopies.CopyMirrorsSource | src/gdextension/bridge_node_edits.cpp:58-87 | the root owns the copy, and below it exactly the counterparts of what it owns below the source |
| NodeCopies.Duplicates | src/gdextension/bridge_node_edits.cpp:313-333 | the do calls add the copy last below the same parent with those owners and change nothing else, in the tree or outside it |
| NodeCopies.UndoOfDuplicateRestores | src/gdextension/bridge_node_edits.cpp:313-340 | undoing a duplicate gives back the tree |
| NodeCopies.RedoOfDuplicateRepeats | src/gdextension/bridge_node_edits.cpp:313-340 | an unowned copy is back as it was made after the undo, and a redo repeats the first do |
| NodeCopies.AcceptedReparentKeepsEveryNode | src/gdextension/bridge_node_edits.cpp:188-210 | a reparent keeps every node in the tree if and only if the new parent is neither the node nor below it, which is what is checked |
| NodeCopies.UndoOfReparentRestores | src/gdextension/bridge_node_edits.cpp:224-233 | undoing an accepted reparent puts the branch back in its old place among its siblings |
| SceneEditor.EditedScene.Run | src/gdextension/bridge_node_edits.cpp:166-167 | registered calls are carried out in the order they were registered |
| SceneLikeness.PerformsSame | src/gdextension/bridge_node_edits.cpp:130-340 | calls on two scenes that differ in owners only leave two scenes that differ in owners only |
| SceneHistory.ChainSwaps | src/gdextension/bridge_node_edits.cpp:130-340 | a history leads through the same scenes, both ways, if one of them is replaced by one that differs in owners only |
| SceneHistory.ChainWith | src/gdextension/bridge_node_edits.cpp:269-280 | a new copy outside the tree disturbs nothing an earlier action does or undoes |
| SceneSessions.EveryRunIsTidy | src/gdextension/bridge_node_edits.cpp:130-340 | over every run of edits, undos and redos the ids of the tree and of each branch outside it are distinct and no two of these share one |
| SceneSessions.NoNodeIsLost | src/gdextension/bridge_node_edits.cpp:130-340 | over every run no node is ever lost |
| SceneSessions.UndoRightAfterRemove | src/gdextension/bridge_node_edits.cpp:130-167 | over every run, undo right after remove puts every node back in its place, and gives back the scene if and only if the branch was restorable |
| SceneSessions.HistoryDecides | src/gdextension/bridge_node_edits.cpp:130-340 | over every run, after any edits and any undos and redos of them the tree is the one there was when as many of the edits were in effect: but for owners always, exactly where every branch removed was restorable |
| SceneSessions.UndosAndRedos | src/gdextension/bridge_node_edits.cpp:130-340 | n edits and n undos give back the tree they began with, and n redos the scene they ended in |
| SceneEditor.EditedScene.RemoveNode | src/gdextension/bridge_node_edits.cpp:86-167 | refused where a save would drop it; else the tree is the old one without the branch, and the branch stands outside with the owners it has inside itself |
| SceneEditor.EditedScene.ReparentNode | src/gdextension/bridge_node_edits.cpp:180-239 | refused where a save would drop it, or below a missing node, a foreign one, itself or a descendant; else the branch stands last below its new parent and the rest as it was |
| SceneEditor.EditedScene.DuplicateNode | src/gdextension/bridge_node_edits.cpp:269-340 | refused where a save would drop it or the copy has another shape; else the copy stands last below the same parent, owned node by node as its source is |
| SceneEditor.EditedScene.Undo | src/gdextension/bridge_node_edits.cpp:130-340 | leads back to the scene before the last action in effect, but for owners |
| SceneEditor.EditedScene.Redo | src/gdextension/bridge_node_edits.cpp:130-340 | leads on to the scene after the next action, but for owners |
| ViewportIsolation.WalkMeetsEachOnce | src/gdextension/bridge_capture.cpp:624-683 | the walk meets every node of the tree, each once |
| ViewportIsolation.CollectHidden | src/gdextension/bridge_capture.cpp:624-683 | the explicit stack gives the walk in order, collects what is to be hidden, and stops past 100000 nodes |
| ViewportIsolation.VisibleAfterwards | src/gdextension/bridge_capture.cpp:634-663 | afterwards a node is visible exactly when it was and it is the target, above it, below it or nothing drawn |
| ViewportIsolation.KeptAre | src/gdextension/bridge_capture.cpp:634-663 | what is kept is the target, everything above it and everything below it |
| ViewportIsolation.Editor.Begin | src/gdextension/bridge_capture.cpp:573-743 | succeeds exactly when every call does; a failure whose roll back succeeds leaves every node and the background as they were |
| ViewportIsolation.Editor.Restore | src/gdextension/bridge_capture.cpp:745-785 | puts back everything whose call succeeds and reports no failure exactly when all do |
| ViewportIsolation.Editor.HideAll | src/gdextension/bridge_capture.cpp:699-705 | hides one after another up to the first that cannot be hidden |
| ViewportIsolation.IsolateAndRestore | src/gdextension/bridge_capture.cpp:573-785 | when the calls succeed an isolation and its restore leave no trace |
| SceneHierarchy.CountDescendantsByType | src/gdextension/bridge_editor.cpp:37-70 | counts everything beneath a node by class |
| SceneHierarchy.SharedBudget.BuildHierarchy | src/gdextension/bridge_editor.cpp:72-172 | the recursion with its shared budget computes the report defined by recursion over the tree |
| SceneHierarchy.ChargesWhatItReports | src/gdextension/bridge_editor.cpp:118-127 | nodes and bytes are charged for exactly what is reported, never past the limits, and every summary adds up to its count |
| SceneHierarchy.TruncatedUnlessWhole | src/gdextension/bridge_editor.cpp:118-170 | truncated is false exactly when the whole branch was reported |
| SceneHierarchy.TellsOfEveryNode | src/gdextension/bridge_editor.cpp:128-172 | unless the budget stopped it, nodes reported and nodes summarised are the branch, class by class |
| SceneHierarchy.HierarchyAccountsForTheScene | src/gdextension/bridge_editor.cpp:22-172 | all of this from a fresh budget, in numbers |
| SceneHierarchy.ReportsExactlyWhatFits | src/gdextension/bridge_editor.cpp:22-172 | the report is the tree cut at the depth limit, in full, if and only if that fits both limits; otherwise it says that it was stopped |
| CaptureCache.KeepsTheLongestThatFits | src/common/capture_cache.cpp:46-53 | what a store keeps is the longest run of most recently used frames that fits beside the new one |
| CaptureCache.RunKeepsBudget | src/common/capture_cache.cpp:27-63 | over every run of stores and finds both limits hold and no capture is kept twice |
| CaptureCache.FindKeeps | src/common/capture_cache.cpp:57-63 | a find loses no frame and keeps the limits |
| CacheRecency.HeldExactlyWhileItFits | src/common/capture_cache.cpp:27-63 | over every run from its last use on, a frame is found if and only if it and the frames used since fit beside each frame that is stored; what the cache held before does not matter |
| CacheRecency.TakenExactlyWhen | src/common/capture_cache.cpp:27-42 | a capture is taken exactly when it is well formed and could stand in the cache alone, and is then found |
| CaptureCache.Cache.Store | src/common/capture_cache.cpp:27-55 | refines the recency-ordered list; a refused store changes nothing |
| CaptureCache.Cache.MakeRoom | src/common/capture_cache.cpp:46-53 | evicts the least recently used until the frame fits |
| CaptureCache.Cache.Oldest | src/common/capture_cache.cpp:48-50 | the entry with the smallest stamp is the least recently used |
| CaptureCache.Cache.Find | src/common/capture_cache.cpp:57-63 | the frame stored under an id, which becomes the most recently used |
| CaptureCache.Cache.Contains | src/common/capture_cache.cpp:65-67 | whether it is stored, without touching the order |
| ConsoleLog.PushLine | src/common/logger.cpp:75-89 | what a push does under the lock |
| ConsoleLog.DropsNoMoreThanItMust | src/common/logger.cpp:78-84 | a push drops the oldest lines and no more than it must |
| ConsoleLog.RunKeepsInv | src/common/logger.cpp:75-127 | every interleaving of pushers and the writer keeps the invariant |
| ConsoleLog.CountersAreExact | src/common/logger.cpp:75-127 | pending is queued plus in-flight lines, bytes is the queued length, and the queue is bounded |
| ConsoleLog.EveryLineOnce | src/common/logger.cpp:75-127 | in every state of every run each line pushed is written once, dropped once or on its way and never two of these, and lines written and lines dropped keep the order they were pushed in |
| ConsoleLog.DrainedMeansAnnounced | src/common/logger.cpp:92-127 | when a drain sees nothing pending every line was written or dropped, not both, and the announced counts sum to exactly the lines dropped |
| ConsoleLog.WriterCanCatchUp | src/common/logger.cpp:92-127 | after every run the writer alone can bring the queue to nothing pending, having written everything pushed that was not dropped, in order |
| Base64.Encode | src/common/base64.cpp:11-31 | the loop writes the encoding of RFC 4648 section 4 |
| Base64.Decode | src/common/base64.cpp:41-75 | the accumulator loop, wrapping at 32 bits, gives the regrouped bits; exactly floor(6k/8) bytes for k alphabet characters before the first padding, never more than is reserved |
| Base64.DecodeInvertsEncode | src/common/base64.cpp:11-75 | decoding inverts encoding for every byte sequence |
| Base64.ReencodingIsStable | src/common/base64.cpp:11-75 | encoding what any accepted text decoded to is stable |
| Base64Laws.LettersAreTheTable | src/common/base64.cpp:8-9 | the letters are the table of RFC 4648 and no other character has a place in it |
| Base64Laws.GroupsAreOneNumber | src/common/base64.cpp:15-28 | three bytes and the four letters they become are one number in base 256 and base 64, and no letter is spared or wasted |
| Base64Laws.EncodedIs | src/common/base64.cpp:11-31 | an encoding is those letters and the fewest equals signs that make its length a multiple of four |
| Base64Laws.ReadPassesOver | src/common/base64.cpp:64-66 | decoding ends at the first equals sign and passes over every character outside the table |
| Sha256.PaddingIsMinimal | src/common/sha256.cpp:24 | the number of zero bits is the least that section 5.1.1 of FIPS 180-4 allows |
| Sha256.BuildsThePadding | src/common/sha256.cpp:27-37 | byte by byte the loop builds the padded message, and the marker never meets the length |
| Sha256.PaddingIsInjective | src/common/sha256.cpp:24-37 | messages under 2^61 bytes that pad alike are alike |
| Sha256.ReadBlock | src/common/sha256.cpp:26-37 | the sixteen words of a block |
| Sha256.Extend | src/common/sha256.cpp:38-40 | the message schedule of section 6.2.2, in place |
| Sha256.OneRound | src/common/sha256.cpp:42-54 | one round of section 6.2.2 as the variables are shifted along |
| Sha256.Digest | src/common/sha256.cpp:20-63 | the hash of section 6.2.2 over the padded message |
| Sha256.Sha256Hex | src/common/sha256.cpp:64-68 | its 64 lower-case hexadecimal digits |
| Sha256Example.HashOfAbc | src/common/sha256.cpp:9-63 | the hash of "abc", through all 64 rounds, is the digest FIPS 180-2 publishes |
| Sha256Example.TextOfAbc | tests/test_checkpoints.cpp:164-165 | its hexadecimal text is the one the test of checkpoints expects |
| ImageSimilarity.StructuralSimilarity | src/common/image_diff.cpp:108-161 | the block loops compute the clamped mean score |
| ImageSimilarity.Bounds | src/common/image_diff.cpp:146-151 | from the running sums: variances are not negative and twice the covariance is within their sum |
| ImageSimilarity.ScoreIsBounded | src/common/image_diff.cpp:149-155 | every block has a positive denominator and a score above -1 and at most 1 |
| ImageSimilarity.MeanIsBounded | src/common/image_diff.cpp:155-160 | so is the mean, and the upper clamp never acts |
| ImageSimilarity.SimilarityIsSymmetric | src/common/image_diff.cpp:108-161 | the similarity is symmetric in its images |
| ImageSimilarity.ShortcutAgrees | src/common/image_diff.cpp:112-119 | the shortcut for equal planes says what the general formula would |
| ImageLaws.FlatPlanes | src/common/image_diff.cpp:108-161 | two planes of one brightness each, of any size, score as their two brightnesses do |
| ImageLaws.BlackAgainstWhite | src/common/image_diff.cpp:121-124 | black against white of any size scores 1 / 10001 |
| ImageLaws.SumsOfTurned | src/common/image_diff.cpp:126-145 | the sums of two pixels, black and white, against the same two changed round |
| ImageLaws.ScoreOfTurned | src/common/image_diff.cpp:146-155 | by the formula they score -1.9964 / 2.0036 |
| ImageLaws.BlocksCoverThePlane | src/common/image_diff.cpp:126-160 | the mean is taken over the blocks of eight by eight pixels it takes to cover the plane, each as large as the plane lets it be |
| ImageLaws.LumaIsBetween | src/common/image_diff.cpp:68-78 | brightness lies between the smallest and the largest channel, alpha aside |
| ImageDiff.ComparePixels | src/common/image_diff.cpp:264-300 | the pixel loop: counts, sums, the largest difference, the rectangle and the difference image |
| ImageDiff.DiffRgba | src/common/image_diff.cpp:250-335 | every reported metric means what it says, the shortcut for equal images included, or the comparison is refused |
| ImageDiff.SmallestIsLeast | src/common/image_diff.cpp:290-295 | the bounding box is the smallest rectangle that holds the changed pixels, and the only one |
| ImageLaws.ThresholdsDecide | src/common/image_diff.cpp:273-283 | with threshold 0 exactly the pixels that differ are changed, with 255 none is, and a higher threshold never finds more |
| ImageDiff.SwapChangesOnlyTheHashes | src/common/image_diff.cpp:250-335 | swapping the images changes nothing but which hash is before and which after |
| ImageHashes.HammingDistance | src/common/image_diff.cpp:240-248 | clearing the lowest bit until none is left counts the bits |
| ImageHashes.DistanceIsAMetric | src/common/image_diff.cpp:240-248 | the distance is a metric, and at most 64 between hashes |
| ImageHashes.AtMostHalfAreAbove | src/common/image_diff.cpp:212-223 | at most 32 of the 64 coefficients are above the median |
| ImageHashes.BoxesTile | src/common/image_diff.cpp:83-98 | no box is empty or reaches past the plane, and on a plane long enough they tile it |
| SchemaClosure.WalkFindsEveryReference | tools/generate_phase7_schemas.py:52-63 | the walk yields exactly the references in a value |
| SchemaClosure.GivesUpExactlyOnOddReferences | tools/generate_phase7_schemas.py:52-63 | the walk gives up exactly when somewhere in the value a `$ref` is neither null nor a string |
| SchemaClosure.LocalIs | tools/generate_phase7_schemas.py:85-90 | a reference is taken exactly when it is `#/$defs/` and a name without a slash |
| SchemaClosure.Standalone | tools/generate_phase7_schemas.py:82-101 | the worklist ends on any definitions, cyclic or not; it succeeds exactly when a closed set exists and then gives the least one |
| SchemaClosure.EveryNameIsReached | tools/generate_phase7_schemas.py:82-101 | every definition kept is at the end of a chain of references from the request |
| SchemaClosure.EmittedIsSelfContained | tools/generate_phase7_schemas.py:103-108 | every reference anywhere in the emitted schema resolves inside it |
| ContractOverlay.OverlayOf | tools/contract_snapshots.py:351-365 | the loop that fills the changes computes the recursive definition |
| ContractOverlay.AppliedGivesOther | tools/contract_snapshots.py:351-365 | carrying the changes out gives the other value if and only if no null stands where it reads as no change and no "<absent>" where it reads as a deletion |
| ContractOverlay.OverlayRoundTrip | tools/contract_snapshots.py:351-365 | for values without null and "<absent>" members that always holds, and nothing is said exactly when nothing differs |
| ContractOverlay.NullIsLost | tools/contract_snapshots.py:351-365 | the smallest recordings that differ in a null and have no overlay |
| ContractOverlay.AbsentIsTakenForGone | tools/contract_snapshots.py:351-365 | the smallest two recordings with one overlay, one with the text "<absent>" and one without the member |
| ContractOverlay.FirstDisagreement | tools/contract_snapshots.py:738-756 | None exactly when the two are equal; otherwise the first path they disagree at, keys in order: every other such path comes later or goes on from it |

## Left out

- ConfigRoundTrip.ScanInvertsPrint: printed files hold no carriage return before a newline (`ConfigRows.ReadsEveryRow` has rows that end in one); plain keys hold no blank, quote or equals sign and do not begin with `[` or `;`, because such text is a header, a comment or a quoted key.
- ConfigRows.ReadsEveryRow: a value with a line break in it stands right behind its equals sign, and its row holds no carriage return; behind a number or a keyword a space, a comment or the end of the row follows; a name at the end of a row is in `ConfigNames.NameEndsOnItsLine`.
- ScanComments.CommentIsIdle: the comment does not end in `]`, because a line that begins with `[` and then ends in `]` is a heading, and its first half may not be one.
- `booleanize`, `floatize`, `decimalPrefix` and `stringValue`: conversions of single values.
- The depth counter of the value checker is unbounded; in the code it is an `int` bounded by the depth cap.
- IpcRequests.StreamStaysAligned: is stated for the POSIX loop. The Win32 header resume can reach its `continue` with header bytes already consumed, and alignment does not follow there.
- The Win32 server and client, whose handle protocol differs in calls but not in shape.
- IpcRequests.ReturnedIsWhatTheHandlerSaid: the request counter does not wrap at 64 bits, and only the connections of one client are modelled; other clients share the handler's lock and nothing else.
- Socket modes, permissions of the socket file, the listener's path, log lines and error messages.
- NodeCopies.UndoOfReparentRestores: what the engine's `reparent` does to owners, names and transforms is not modelled, nor the name set again after it.
- Names of nodes: a duplicate's unique name is the engine's choice.
- SceneEditor.EditedScene.RemoveNode: engine calls that fail while an action is being registered abandon it, and are not modelled. Which nodes come from a base scene is a parameter.
- `MaterialOverrides`, `collectPassSubjects` and the rendering of passes: a second walk of the same kind with more engine calls.
- ViewportIsolation.Editor.Begin: engine calls that fail during the walk, before anything was changed, are not modelled; each object either takes its calls or does not, and no object is freed between two of them.
- SceneHierarchy.SharedBudget.BuildHierarchy: the ownership, instance and path fields of a node only enter as the size it is charged for.
- CaptureCache.Cache.Store: the stamp does not wrap at 64 bits.
- ConsoleLog.EveryLineOnce: a line counts as written when it is handed to the console; whether the console took all of it is not modelled.
- Floating-point rounding: similarity is over the reals. The cosine transform of a hash is a parameter, and what is modelled of it is the count of its bits and the boxes it averages.
- ImageHashes.HammingDistance: the bitwise operations are written out digit by digit on unsigned numbers of any width.
- SchemaClosure.Standalone: the checks of `$schema`, `$id` and the added request properties, and the order in which definitions are printed.
- ContractOverlay.FirstDisagreement: the path only, not the text of the message; equality of numbers across Python types is not modelled.
- `generate_ui_app.py`, `undo_capture.cpp` and `file_lock.cpp`: smaller or easier than what is here.
- The remaining bridges, the MCP server, the website, release and documentation tools.
