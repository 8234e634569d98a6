# PaneDock: the core, verified

PaneDock is a Windows file manager: groups of panes, panes of tabs, each tab a Shell location. Its
algorithms and state machines live apart from the Win32 code. This project models them in Dafny and
proves what they are for:

- **Session store.** The JSON parser accepts exactly the texts of the RFC 8259 grammar, over bytes,
  whose numbers are finite, names unique and escaped surrogates paired. Decoding is given exactly by a
  schema of the session file; what is written reads back, a torn write never reads, fields of newer
  versions survive, and what older versions left out is read with its default. The former session stays
  as the backup. After a successful write nothing older is ever read, whatever writes, failures and
  crashes follow, and it is proved of which disks a run can lose the session read at the start: those
  where a leftover temporary file hides the backup (`SessionSchema`, `SessionStore`).
- **Cooperative sort.** A merge sort that pauses after any element write produces the one stable
  order, whatever the budgets, and applies it in place by cycles, with one move to each displaced row
  and one more to each cycle (`BoundedOrder`, `CooperativeSort`).
- **Shutdown.** With arbitrary calls coming in while views are destroyed or a prompt is open, views
  go once, the window after them, both after a save attempt, and no close is lost, nor one asked for
  during a file operation (`ShutdownProtocol`); every flag of the reducer rises and falls, and every action
  is asked for, exactly when it should (`ShutdownLaws`).
- **Groups, panes, tabs.** Every mutation keeps the session valid or changes nothing; tabs are
  conserved, and their ids stay distinct across a group exactly as long as ids given from outside are
  free in it; what an operation does not have to change stays as it was; the searches for new ids end
  (`PaneTabs`, `GroupLayout`, `Groups`, `GroupLaws`, `FreshIds`).
- **Lists, caches, geometry.** The icon cache whose slots follow a shifting image list, the row
  comparisons and the incremental sort, tab strip and pane geometry, and the column setting
  (`IconCache`, `RowOrder`, `IncrementalSort`, `TabStrip`, `LayoutGeometry`, `Columns`).

## How it is built

Code that computes is a function here, and code that changes things step by step is a method or a
class, proved against such a function: `JsonParser.Parser`, `SessionStore.Store`,
`CooperativeSort.Sorter`, `Shutdown.ShutdownSequence`, `ShutdownProtocol.Application`,
`HeldMessages.HeldQueue`, `IconCache.IconCache`. A struct that a free function of the source changes
through a reference is a `References.Ref`. The theorems are lemmas about the functions, so they hold
of the methods.

What the model takes as given:

- A `std::string` is a Dafny `string` of characters below 256, one per byte; a `std::wstring` is a
  sequence of 16-bit units. Bit operations on disjoint fields are written as arithmetic. The JSON
  grammar is one of bytes too: from 0x80 up they stand for themselves, UTF-8 or not.
- A double is carried as the text it prints as with 17 significant digits. Reading a number is a
  function from lexemes to such texts (`NumberFormat`); `SoundFormat` says what is assumed of it, and
  `SoundFormatExists` that it can be met. Range checks on ratios are exact decimal comparisons. The
  layout geometry takes ratios as real numbers.
- Renames and removals are atomic and may fail, files grow byte by byte, and a crash leaves one of
  the states passed through. The identity of a stored document is its JSON tree, which determines
  the state and the shutdown flag.
- In the shutdown protocol everything outside is nondeterministic: `Interrupt` makes any public
  calls in any order, each of which may be interrupted again, scopes of Shell calls being balanced.
  Calls come in while views are destroyed, while the save prompt is open, and inside Shell calls.
  Runs are finite: `surprises` counts what is still to come, failing posts included, and a retry
  after a failed post ends because of it. The main window exists throughout or not at all. The
  reducer's flags are in four groups; the coordinator and the re-entry guard are one object, because
  each can be entered again through the other.
- The system's comparisons of names, and the order of identities, are functions that are only assumed
  to be consistent with themselves. The clock is a parameter.
- `std::sort` and `std::inplace_merge` are used only for what they promise.

Where the source's comments and its code differ, the model follows the code. Two places: a "group-"
id can own the computed next id only after the number wraps around (`FreshIds.NextNumberIsFree`),
and a session end that is cancelled does not always leave the state as it was.

Six properties one might expect do not hold. Each has an input on which it fails, and the exact
condition under which it holds:

| expected | fails on | holds if and only if |
|---|---|---|
| every RFC 8259 text parses | `JsonReaderProofs.HalfPairRefused` | `JsonReaderProofs.GrammarAccepted` |
| a write never loses the session read before | `SessionStore.LeftoverLost` | `SessionStore.OneWriteKeepsIff`, `SessionStore.RunsKeepIff` |
| a cancelled session end leaves no trace | `Shutdown.CancelLeavesTrace` | `Shutdown.CancelAfterEndSession` |
| a layout can always be chosen | `FreshIds.MisnumberedRefused` | `FreshIds.SetLayout` |
| shrunken tabs fit | `TabStrip.ShrunkMayOverflow` | `TabStrip.ContentFits` |
| column widths survive the screen | `Columns.LowResolutionChangesWidth` | `Columns.WidthsSurviveIff` |

## Model

| member | source | states |
|---|---|---|
| JsonReaderProofs.ParseExactly | src/core/session.cpp:24-175 | A text is accepted, with a value, exactly when some syntax tree of the RFC 8259 grammar over bytes (sections 2 to 7) spells it, denotes that value and is acceptable: numbers finite, names in an object unique, escaped surrogates paired |
| JsonReaderProofs.GrammarAccepted | src/core/session.cpp:24-175 | Every text of that grammar is accepted if and only if its tree is acceptable, with the value it denotes, whatever the white space |
| JsonReaderProofs.OneMeaning | src/core/session.cpp:24-175 | All syntax trees of one text agree on whether it is accepted and on its value |
| JsonReaderProofs.HalfPairRefused | src/core/session.cpp:88-95 | The input on which parser and grammar differ: a string of one escaped surrogate, such as d800, is in the grammar and refused |
| JsonReaderProofs.ParsedSpells | src/core/session.cpp:24-175 | Accepted text has a syntax tree: its numbers, strings, arrays and objects obey the grammar and the value is what they denote |
| JsonTokenProofs.ScanNumberSound | src/core/session.cpp:117-144 | What the number scanner takes is a number of section 6 of RFC 8259 |
| JsonTokenProofs.ScanNumberComplete | src/core/session.cpp:117-144 | A number of section 6, followed by nothing that continues it, is taken whole |
| JsonTokenProofs.ReadCharsSound | src/core/session.cpp:60-115 | What the string reader takes is a list of bytes and escapes of section 7 of RFC 8259 whose surrogates are paired, and the result is what they stand for |
| JsonTokenProofs.ReadCharsExactly | src/core/session.cpp:60-115 | A list of bytes and escapes of section 7 is taken up to its closing quote if and only if every escaped surrogate is one half of a pair |
| JsonParser.Parser.ParseAll | src/core/session.cpp:24-28 | The parser object, which moves one position over the text, returns what the reading function says |
| JsonParser.Parser.Value | src/core/session.cpp:44-58 | Each branch of value() finds the value the reading function finds and stops at the same place |
| JsonParser.Parser.String | src/core/session.cpp:60-115 | The loop of string() appends exactly the bytes the reading function gives |
| JsonParser.Parser.UnicodeEscape | src/core/session.cpp:77-110 | A \\u escape, with its low surrogate if it starts a pair, becomes the UTF-8 bytes of its code point or is refused |
| JsonParser.Parser.Number | src/core/session.cpp:117-144 | number() accepts the scanned text if it denotes a finite double |
| JsonParser.Parser.Array | src/core/session.cpp:146-159 | array() reads the same items as the reading function |
| JsonParser.Parser.Object | src/core/session.cpp:161-175 | object() reads the same members and refuses a repeated name |
| JsonWriter.ParseDump | src/core/session.cpp:20-229 | Parsing a dumped value gives back that value, trailing white space or not |
| JsonWriter.DumpInjective | src/core/session.cpp:204-229 | Two values that dump to the same text are the same |
| JsonWriter.TornDump | src/core/session.cpp:204-229 | No proper prefix of a dumped object parses |
| JsonWriter.ParsedPrinted | src/core/session.cpp:117-144 | Parsing yields only printed doubles, so ParseDump applies to everything that was read |
| JsonWriter.EscapeText | src/core/session.cpp:181-202 | The one pass of escape() gives the escaped text |
| JsonWriter.EscapeReads | src/core/session.cpp:181-202 | Only quotes, backslashes and bytes below the space are escaped, by one letter where there is one, else by two hexadecimal digits in lower case |
| JsonWriter.DumpValue | src/core/session.cpp:204-229 | dump() gives the compact text, members in key order |
| JsonWriter.DumpArray | src/core/session.cpp:214-221 | The array loop puts a comma before every element but the first |
| JsonWriter.DumpObject | src/core/session.cpp:222-228 | The object loop writes the members in the order of std::map |
| JsonTree.AscendingUnique | src/core/session.cpp:15-15 | There is one ascending order of a set of keys, so a dumped object has one text |
| Wtf8.WideUtf8 | src/core/session.cpp:231-288 | wide(utf8(s)) is s for every sequence of 16-bit units, unpaired surrogates included |
| Wtf8.EncodingShape | src/core/session.cpp:231-258 | A code point is written in as few bytes as section 3 of RFC 3629 allows, its bits laid out as there |
| Wtf8.PairIsOne | src/core/session.cpp:231-258 | Two surrogates that form a pair are written as one character, any other by itself |
| Wtf8.Utf8Injective | src/core/session.cpp:231-258 | utf8() maps different unit sequences to different bytes |
| Wtf8.ToUtf8 | src/core/session.cpp:231-258 | The loop of utf8() appends the bytes of section 3 of RFC 3629, extended to lone surrogates |
| Wtf8.ToWide | src/core/session.cpp:260-288 | The loop of wide() decodes the same units or refuses |
| Wtf8.FoldBytes | src/core/session.cpp:269-276 | The continuation loop of wide() folds exactly the announced number of continuation bytes |
| SessionRoundTrip.DecodeEncode | src/core/session.cpp:447-624 | Decoding an encoded state gives it back with empty tab histories, exactly when the state is storable over the previous root, for every state and every root |
| SessionRoundTrip.StorableOverOwnRoot | src/core/session.cpp:338-624 | Over a previous root that is empty or itself decodes, every valid state whose pins and parents have names is storable |
| SessionRoundTrip.LocationRoundTrip | src/core/session.cpp:338-405 | A location reads back exactly unless its parent has no name or the previous object holds a navigation_parent that is no object |
| SessionRoundTrip.ParentRoundTrip | src/core/session.cpp:343-354 | A stored parent reads back exactly if it has a name |
| SessionRoundTrip.TabRoundTrip | src/core/session.cpp:476-617 | A tab over any previous object reads back without its history exactly when its location does |
| SessionRoundTrip.PaneRoundTrip | src/core/session.cpp:467-619 | The same for a pane |
| SessionRoundTrip.GroupRoundTrip | src/core/session.cpp:455-621 | The same for a group, for any ratios and names |
| SessionRoundTrip.PinnedRoundTrip | src/core/session.cpp:501-564 | The same for the list of pinned locations |
| SessionRoundTrip.TemplateRoundTrip | src/core/session.cpp:414-438 | Every layout template is read back from its name |
| SessionRoundTrip.ForgetValid | src/core/model.cpp:119-166 | Forgetting histories keeps a state valid |
| SessionSchema.DecodeExactly | src/core/session.cpp:527-613 | decode() gives a state for a value tree exactly if the tree describes it, member by member under its name and with the defaults of those that may be absent, and the state is valid |
| SessionSchema.LocationExactly | src/core/session.cpp:368-405 | The same of a location and the parent in it |
| SessionSchema.IntegerExactly | src/core/session.cpp:407-412 | A number counts as an integer exactly if it is one of 32 bits |
| SessionSchema.WrittenDescribes | src/core/session.cpp:447-525 | What is written is such a tree of the state without its histories, and says the shutdown flag |
| SessionSchema.DefaultsAtRoot | src/core/session.cpp:538-562 | A session read without its sidebar width, pins, list font or shutdown flag is read all the same, with width 194, no pins, font 0 and a clean shutdown |
| SessionSchema.DefaultsAtTab | src/core/session.cpp:590-606 | So is one with a tab without columns, namespace flag or parent, or with members that are not known |
| SessionSchema.DefaultsAtPin | src/core/session.cpp:556-564 | So is one with such a pinned location |
| SessionSchema.BadFont | src/core/session.cpp:553-555 | A list font that is no valid size counts as none and discards nothing |
| SessionSchema.UnknownAtRoot | src/core/session.cpp:527-613 | Members of the root that are not known, and a shutdown flag of another kind, change nothing |
| SessionSchema.NeededAtRoot | src/core/session.cpp:531-550 | Without version, active group, groups or placement, or with another kind of value there, nothing is read |
| SessionSchema.WrongKindAtRoot | src/core/session.cpp:538-550 | A sidebar width that is no number and pins that are no list are refused |
| SessionPreservation.EncodeAgain | src/core/session.cpp:447-525 | Encoding again over one's own output gives the identical tree |
| SessionPreservation.RootUnknown | src/core/session.cpp:447-525 | Members of the root and of its window placement that are not known names are kept, and none are made up |
| SessionPreservation.GroupUnknown | src/core/session.cpp:455-499 | In the written root, a group has the unknown members of the first previous object with its id, and no others |
| SessionPreservation.PaneUnknown | src/core/session.cpp:467-494 | The same for a pane, among the previous panes of its group |
| SessionPreservation.PinnedUnknown | src/core/session.cpp:505-514 | The same for a pinned location and the parent in it, by the name it is pinned under |
| SessionPreservation.LocationUnknown | src/core/session.cpp:329-355 | Writing a location keeps the unknown members of the location and of its parent, also when the parent goes |
| SessionPreservation.TabUnknownSurvives | src/core/session.cpp:357-366 | Unknown members of a tab, of its location and of the parent in that survive in the written root, in whichever pane of its group the tab is now |
| SessionPreservation.FindTabAnywhere | src/core/session.cpp:305-366 | The lookup by id finds the first object in the tab's own pane, or, if none is there, the first in all panes; ids need not be unique |
| SessionPreservation.OnlyTabIsPrevious | src/core/session.cpp:357-366 | Where only one previous tab has the id, that is the one found, wherever the tab has been dragged to |
| SessionCodecLoops.EncodeSession | src/core/session.cpp:447-525 | encode(), with its loops over groups, pane, tabs and pins, builds the specified tree |
| SessionCodecLoops.EncodeTabsLoop | src/core/session.cpp:475-492 | The tab loop |
| SessionCodecLoops.DecodeSession | src/core/session.cpp:527-624 | decode(), with its early returns, gives the specified state or none |
| SessionCodecLoops.DecodePinnedLoop | src/core/session.cpp:556-564 | Pins are added one by one; a nameless or repeated one refuses the document |
| SessionDocument.DeserializeSerialize | src/core/session.cpp:636-657 | A serialized document reads back without histories and with the text as its preserved text, exactly when its state is storable |
| SessionDocument.WritableReadsBack | src/core/session.cpp:636-657 | Every writable document reads back |
| SessionDocument.SerializeAgain | src/core/session.cpp:636-643 | Serializing with one's own output as the preserved text gives the identical text |
| SessionDocument.TornSerialization | src/core/session.cpp:636-643 | A proper prefix of a serialized document does not parse, except that the last newline may be missing |
| SessionDocument.SerializeSession | src/core/session.cpp:636-643 | serialize_session() returns the specified text |
| SessionDocument.DeserializeSession | src/core/session.cpp:645-657 | deserialize_session() returns the specified document |
| SessionDocument.SoundFormatExists | src/core/session.cpp:207-212 | The assumption on printed doubles can be met |
| SessionStore.CrashSafe | src/core/session.cpp:659-713 | Whichever steps fail and wherever a crash comes, once the leftover temporary is gone every disk state reads as the session before the write or the one written, torn temporary included; a successful write leaves the new one as the primary |
| SessionStore.SuccessLeaves | src/core/session.cpp:659-713 | A write succeeds exactly if none of its steps fails; then the text is the primary, the backup is the former primary if that could be read and else what it was, and there is no temporary |
| SessionStore.FailureLeaves | src/core/session.cpp:659-713 | What every failed write leaves: primary and backup as they were, but after a failed last rename, and no temporary but where it could not be removed or is all there is |
| SessionStore.EveryPrefixSeen | src/core/session.cpp:673-683 | A crash may leave every prefix of what is written in the temporary |
| SessionStore.NothingLost | src/core/session.cpp:659-754 | From any disk, over any sequence of writes, failures and crashes, the session read is the one read or hidden by a leftover at the start or one attempted; it is never the default state if the primary or the backup reads at the start |
| SessionStore.OneWriteKeepsIff | src/core/session.cpp:659-713 | One write, whatever fails and wherever it is cut off, leaves the session read before it or the one it writes if and only if the one read was no leftover hiding another, or the hidden one is what is written |
| SessionStore.RunsKeepIff | src/core/session.cpp:659-754 | Over all runs: nothing but the session read at the start or one attempted is ever read if and only if no leftover hides another session at the start |
| SessionStore.NeverDefaultIff | src/core/session.cpp:659-754 | Over all runs: the default state is never read if and only if primary or backup reads at the start |
| SessionStore.SuccessIsDurable | src/core/session.cpp:659-754 | From any disk: after a successful write, no later sequence of writes, failures and crashes reads anything older or the default state |
| SessionStore.FormerIsBackup | src/core/session.cpp:689-703 | After a successful write over a primary that reads, damage to the new primary brings the former one back |
| SessionStore.TwoGenerations | src/core/session.cpp:659-754 | After any two successful writes the second is read, and the first if the second is damaged |
| SessionStore.ReadsRecovered | src/core/session.cpp:715-754 | Of the files that can be read, read_session() takes the primary, else the temporary, else the backup, says which, and takes the default state only if none reads; it reports corruption exactly when the directory cannot be read, or neither primary nor temporary reads although something is there |
| SessionStore.RecoveredIsCurrent | src/core/session.cpp:715-754 | What is read is the primary or else the backup exactly when no readable leftover comes between them |
| SessionStore.LeftoverLost | src/core/session.cpp:668-672 | The loss: an unreadable primary, an old backup and a newer complete leftover, which is read; whatever is written next, a crash after its first step brings the backup back |
| SessionStore.SerializedWhole | src/core/session.cpp:636-643 | What is streamed reads as the document only once it is complete up to its newline |
| SessionStore.Store.WriteSession | src/core/session.cpp:659-713 | The steps of write_session() drive the disk through the specified states |
| SessionStore.Store.RemoveTemporary | src/core/session.cpp:668-672 | Removing a missing temporary is no failure |
| SessionStore.Store.Stream | src/core/session.cpp:673-683 | The temporary grows byte by byte, and a torn stream leaves a prefix |
| SessionStore.Store.Publish | src/core/session.cpp:691-703 | Only a primary that reads is rotated into the backup |
| SessionStore.Store.Replace | src/core/session.cpp:703-712 | If the last rename fails the rotation is undone; if that fails too the temporary is kept |
| BoundedOrder.AnyBudgets | src/core/bounded_order.h:20-42 | Under any strict weak order of the rows and any budgets, the first true leaves the stable order of 0..n-1 after exactly n * ceil(log2 n) writes, and comes once the budgets exceed that |
| BoundedOrder.StepActive | src/core/bounded_order.h:26-42 | A call to step() keeps the invariant of the merge and uses its whole budget, or ends with the final order |
| BoundedOrder.NextBlockActive | src/core/bounded_order.h:29-36 | At the end of a block the merged runs are sorted blocks of twice the width, or one block in all |
| BoundedOrder.WriteOneActive | src/core/bounded_order.h:37-38 | One element write keeps what is merged before everything still to merge |
| BoundedOrder.StartedActive | src/core/bounded_order.h:20-24 | start() establishes the invariant |
| BoundedOrder.WritesBounded | src/core/bounded_order.h:26-42 | An unfinished sort has made no more writes than the passes it needs allow |
| StableOrder.StableOrderUnique | src/core/bounded_order.h:26-42 | There is only one stable order |
| StableOrder.StableIsPermutation | src/core/bounded_order.h:26-42 | A stable order is a permutation of 0..n-1 |
| CooperativeSort.Sorter.Step | src/core/bounded_order.h:26-42 | The loop over the arrays and cursors does what the specification of step() says |
| CooperativeSort.Sorter.Turn | src/core/bounded_order.h:28-40 | One turn of it, with the swap of the two arrays |
| CooperativeSort.Sorter.Start | src/core/bounded_order.h:20-24 | start() sets up order, scratch and cursors |
| CooperativeSort.Sorter.Run | src/core/bounded_order.h:14-17 | run() places the cursors on a block |
| CooperativeSort.Sorter.Finish | src/core/bounded_order.h:26-42 | Calling step() with positive budgets until it returns true terminates with the stable order |
| CooperativeSort.Sorter.Apply | src/core/bounded_order.h:43-54 | apply() puts old row order[i] at position i for every permutation and leaves the order the identity; no row is read after it was moved out, and the moves are one to each displaced row and one more to each cycle |
| CooperativeSort.Sorter.FollowCycle | src/core/bounded_order.h:46-52 | One cycle is moved, each row once and the row set aside twice, and closed |
| CooperativeSort.SortRows | src/app_shell/pane_list_properties.cpp:98-108 | Start, step and apply together leave the rows stably sorted |
| Shutdown.ShutdownSequence.Step | src/core/shutdown.cpp:20-222 | The reducer's assignments have, event by event, the specified effect and action |
| Shutdown.ConsistentKept | src/core/shutdown.cpp:20-222 | Every event keeps: a queued continuation has a deferred shutdown, a started teardown has neither, the drag flag counts the drags; only teardown_started starts the teardown and nothing ends it |
| Shutdown.LastGateResumes | src/core/shutdown.cpp:12-16 | A waiting close is resumed by exactly the event that clears the last gate |
| Shutdown.CancelAfterEndSession | src/core/shutdown.cpp:35-82 | Cancelling a session end restores the state exactly when it was unwindable, and never takes back a close that was under way |
| Shutdown.CancelLeavesTrace | src/core/shutdown.cpp:35-82 | A run that is not restored: closed during a file operation, then the session end comes and is cancelled, and the transfer is left to be closed after |
| Shutdown.TeardownGrantedOnce | src/core/shutdown.cpp:201-208 | In every sequence of events the teardown is granted at most once |
| Shutdown.SavesBounded | src/core/shutdown.cpp:110-127 | A continuation asks for a save at most once, plus once per keep-open or cancelled session end |
| ShutdownLaws.FlagsByHistory | src/core/shutdown.cpp:22-211 | Over all events from the start: closing, quit, prompt, file operation, window and marker flags and both counters are what the last events of their kinds say; the marker is armed exactly if a save succeeded and none failed, nor was the window kept open, since |
| ShutdownLaws.WhenGatesChange | src/core/shutdown.cpp:22-211 | When exactly the deferred and queued flags and the counters of Shell calls and drags rise and fall |
| ShutdownLaws.WhenCloseChanges | src/core/shutdown.cpp:22-211 | When exactly closing, quit and window flags rise; they never fall |
| ShutdownLaws.WhenSaveChanges | src/core/shutdown.cpp:22-211 | When exactly the prompt, save and marker flags rise and fall |
| ShutdownLaws.WhenSessionEndChanges | src/core/shutdown.cpp:45-82 | When exactly a session end is pending, and what it remembers |
| ShutdownLaws.WhenTransferChanges | src/core/shutdown.cpp:22-211 | When exactly the file operation flags and the wish to close after it rise and fall |
| ShutdownLaws.WhenCancelChanges | src/core/shutdown.cpp:22-211 | When exactly a file operation is asked to cancel |
| ShutdownLaws.WhenActionsAreAsked | src/core/shutdown.cpp:22-211 | When exactly each action is asked for |
| ShutdownLaws.CloseComesAfterTransfer | src/core/shutdown.cpp:23-34 | A close during a file operation asks the user and is remembered; unless the window is kept open, a session end is cancelled or another operation begins, it is taken up once the operation is over |
| ShutdownProtocol.AnyRun | src/core/shutdown_coordinator.cpp:5-153 | In every run, with calls nested in view destruction and in the save prompt: views are destroyed at most once and after a save attempt, the window at most once and after the views; a deferred shutdown with no call or drag outstanding is queued; the clean marker is armed only after a good save |
| ShutdownProtocol.SoundLogsAreOrderly | src/core/shutdown_coordinator.cpp:82-94 | What the invariant says of the teardown steps means, effect by effect, the order above |
| ShutdownProtocol.Application.RequestClose | src/core/shutdown_coordinator.cpp:5-12 | A close asked for at an open moment is deferred, with the caption changed, even if posting fails meanwhile; during a file operation the user is asked instead and the close remembered; while one is under way nothing happens |
| ShutdownProtocol.Application.DeferredShutdownReady | src/core/shutdown_coordinator.cpp:14-16 | With nothing outstanding the continuation saves, and a good save is followed by the teardown |
| ShutdownProtocol.Application.DragChanged | src/core/shutdown_coordinator.cpp:18-22 | The last drag that ends queues a waiting close |
| ShutdownProtocol.Application.CompleteDeferredClose | src/core/shutdown_coordinator.cpp:24-32 | A close that waited for a transfer is taken up when the transfer is over |
| ShutdownProtocol.Application.TransferChosen | src/core/shutdown_coordinator.cpp:34-47 | Keeping open forgets the close and the cancellation, cancelling asks for both, and closing after the transfer waits for it or defers the close at once |
| ShutdownProtocol.Application.EndSessionConfirmed | src/core/shutdown_coordinator.cpp:49-73 | The checkpoint is the first effect whatever the state; with nothing in the way the teardown follows |
| ShutdownProtocol.Application.EndSessionCancelled | src/core/shutdown_coordinator.cpp:75-80 | A cancelled session end steps the reducer and loses no close |
| ShutdownProtocol.Application.Finish | src/core/shutdown_coordinator.cpp:84-94 | A teardown not yet started is carried through: views, then the window |
| ShutdownProtocol.Application.Run | src/core/shutdown_coordinator.cpp:96-153 | Each action runs its effects and keeps the invariant |
| ShutdownProtocol.Application.Post | src/core/shutdown_coordinator.cpp:108-112 | A failed post drops the deferral and asks again, finitely often |
| ShutdownProtocol.Application.PromptAnswered | src/core/shutdown_coordinator.cpp:126-144 | A session end confirmed during the prompt wins over the answer; otherwise only an explicit No closes |
| ShutdownProtocol.Application.Leave | src/app_shell/shell_reentry_guard.h:54-69 | Leaving the outermost Shell call re-arms a deferred close |
| ShutdownProtocol.Application.ReplayHeld | src/app_shell/shell_reentry_guard.h:83-98 | The held interactions are posted again in order, or dropped if a shutdown is under way, and the queue is empty either way |
| ShutdownProtocol.Application.DestroyTheWindow | src/app_shell/main.cpp:2761-2764 | WM_DESTROY is handled before the window's destruction returns |
| ShutdownProtocol.Application.WindowGoes | src/app_shell/main.cpp:3881-3899 | An unsaved session is saved on the way out |
| ShutdownProtocol.Application.FinalizeProcess | src/app_shell/main.cpp:2772-2778 | The clean marker is written exactly if it is armed and the window is gone, and so only after a good save |
| HeldMessages.QueueCoalesces | src/app_shell/deferred_messages.h:53-70 | After any arrivals the queue has one entry per key, in the order of first arrival, each the newest of its key |
| HeldMessages.ClicksReplace | src/app_shell/deferred_messages.h:39-42 | The messages that replace an earlier one are the clicks of the left button and context menus |
| HeldMessages.HeldQueue.HoldMessage | src/app_shell/deferred_messages.h:53-70 | The loop overwrites the entry of the same target and message, or appends |
| HeldMessages.HeldQueue.Take | src/app_shell/deferred_messages.h:74-78 | The queue is handed over and left empty |
| TabHistory.RecordNavigation | src/core/model.cpp:68-80 | A navigation drops what is ahead in the history and appends; the same location changes nothing |
| TabHistory.NavigateBack | src/core/model.cpp:90-94 | One step back, or refused at the start |
| TabHistory.NavigateForward | src/core/model.cpp:96-100 | One step forward, or refused at the end |
| TabHistory.RestoreHistoryIndex | src/core/model.cpp:102-107 | Any index of the history, or refused |
| TabHistory.RecordedThenBack | src/core/model.cpp:68-100 | A recorded navigation can be gone back from, in a valid tab to where it started, and forward again, and nothing before it is lost |
| TabHistory.RefusedMoveUndone | src/core/model.cpp:90-107 | Restoring the index undoes a move back or forward |
| TabHistory.PressesAddUp | src/core/model.cpp:109-117 | Without a pending move a press goes where Back or Forward goes; with one it goes on from there |
| PaneTabs.AddTab | src/core/model.cpp:413-419 | A tab with a new id is appended, any other refused without change |
| PaneTabs.ReorderTab | src/core/model.cpp:421-433 | The tab is taken out and put in at the target, or nothing changes |
| PaneTabs.MoveTab | src/core/model.cpp:435-472 | Between two different panes the tab moves as specified; every refusal leaves both unchanged |
| PaneTabs.CloseTab | src/core/model.cpp:474-493 | The tab is erased or, as the only one, reset in place |
| PaneTabs.SetActiveTab | src/core/model.cpp:495-501 | Only a tab of the pane can become active |
| PaneTabs.AddedValid | src/core/model.cpp:413-419 | Adding keeps the pane valid exactly if the tab is |
| PaneTabs.ReorderedValid | src/core/model.cpp:421-433 | Reordering keeps the pane valid and its active tab |
| Vectors.ReorderKeeps | src/core/model.cpp:427-431 | Reordering keeps the elements and the order of the others, and can be undone |
| PaneTabs.WithoutTabValid | src/core/model.cpp:458-464 | Erasing loses exactly that tab; the next one, or the last, takes over if it was active |
| PaneTabs.ClosedValid | src/core/model.cpp:474-493 | Closing keeps the pane valid and takes away one tab or empties the only one |
| PaneTabs.ActivatedValid | src/core/model.cpp:495-501 | Exactly the tabs of the pane can become active, and it stays valid |
| PaneTabs.MovedValid | src/core/model.cpp:435-472 | A move keeps both panes valid and makes the tab the active one of the target at the position asked for |
| PaneTabs.MovedConserves | src/core/model.cpp:435-472 | A move neither loses nor doubles a tab, but for the one placeholder |
| PaneTabs.MovedBack | src/core/model.cpp:435-472 | Moving the tab back restores the tabs of both panes; a placeholder stays |
| PaneTabs.MoveKeepsIdsDistinct | src/core/model.cpp:435-472 | After a move the tab ids of the group are distinct exactly if the placeholder's id was free in the whole group |
| PaneTabs.AddedInGroup | src/core/model.cpp:413-419 | A tab added to a pane leaves its group valid exactly if the tab is; tab ids stay distinct across the group exactly if the id was free in all its panes, though only the one is looked at |
| PaneTabs.ClosedInGroup | src/core/model.cpp:474-493 | Closing leaves the group valid and its tab ids distinct, and takes exactly that tab out of the group or resets it |
| PaneTabs.ReorderedInGroup | src/core/model.cpp:421-433 | Reordering leaves the group valid, its tab ids distinct and its tabs the same |
| PaneTabs.ActivatedInGroup | src/core/model.cpp:495-501 | So does making a tab the active one |
| PaneTabs.MoveConservesTabs | src/core/model.cpp:435-472 | The tabs of the group are conserved, but for the placeholder |
| PaneTabs.MoveKeepsGroupValid | src/core/model.cpp:119-153 | A move keeps the group valid |
| GroupLaws.ValidPaneReads | src/core/model.cpp:138-151 | Validity of a pane, tab by tab |
| GroupLaws.ValidGroupReads | src/core/model.cpp:119-152 | Validity of a group, with the ratios of its dividers as real numbers from 0 to 1 |
| GroupLaws.ValidApplicationReads | src/core/model.cpp:154-166 | Validity of a session, group by group |
| RatioText.RatioMeans | src/core/model.cpp:126-130 | The test of a ratio is that its number is from 0 to 1 |
| RatioText.ScientificReads | src/core/model.cpp:126-130 | Which number a text with or without fraction and exponent stands for |
| GroupLaws.AddedLast | src/core/model.cpp:413-419 | A tab with a new name is added behind the others and nothing else changes; any other is refused |
| GroupLaws.ReorderedOnly | src/core/model.cpp:421-433 | The tab stands at the target, the others in their order, and nothing else changes |
| GroupLaws.ClosedOnly | src/core/model.cpp:474-493 | Exactly the one tab goes and which one is active then; the only tab stays with its view, at the default location without history |
| GroupLaws.MovedOnly | src/core/model.cpp:435-472 | When a move is refused, and where every tab of both panes is after it, the placeholder with its view included |
| GroupLaws.UnknownTabRefused | src/core/model.cpp:421-501 | What is asked of a tab that is not there is refused |
| GroupLayout.SwitchLayout | src/core/model.cpp:349-411 | The copy is built, checked and written back as specified; every refusal leaves the group unchanged |
| GroupLayout.SwitchedIffNewIdentities | src/core/model.cpp:349-411 | A switch of a valid group is refused only for the number, emptiness or repetition of the new ids |
| GroupLayout.SwitchedKeepsPanes | src/core/model.cpp:366-396 | All panes are kept, the group stays valid, the active pane is visible and stays active if it can, and the same template keeps its ratios |
| GroupLayout.SwitchedBack | src/core/model.cpp:349-411 | Switching back needs no new ids and changes no pane |
| GroupLayout.SwitchedIdsDistinct | src/core/model.cpp:372-377 | Tab ids stay distinct across the group exactly if the new ones were free in it and distinct |
| GroupLaws.SwitchedOnly | src/core/model.cpp:349-411 | The added panes have one tab at the location given with the default view, ratios start from halves in another layout and stay in the same, and the active pane is the same if it is shown, else the first |
| GroupLayout.SetActivePane | src/core/model.cpp:503-509 | Only a pane of the group can become active |
| Groups.AddGroup | src/core/model.cpp:230-241 | A valid group with a new id is appended and becomes active if none was |
| Groups.GroupAddedValid | src/core/model.cpp:230-241 | It is accepted exactly then, and the application stays valid |
| GroupLaws.GroupAddedLast | src/core/model.cpp:230-241 | The group is behind the others, active if there was none |
| Groups.RenameGroup | src/core/model.cpp:262-270 | Only the name of the one group changes |
| Groups.GroupRenamedValid | src/core/model.cpp:262-270 | Renaming a group leaves the session valid |
| GroupLaws.GroupRenamedOnly | src/core/model.cpp:262-270 | Of all groups only the one changes, in nothing but its name |
| Groups.DuplicateGroup | src/core/model.cpp:272-286 | A copy under a new id and name is appended |
| Groups.GroupDuplicatedValid | src/core/model.cpp:272-286 | The application stays valid |
| GroupLaws.GroupDuplicatedLast | src/core/model.cpp:272-286 | The copy is behind the others, alike in all but id and name, and not active; only an id that is taken or empty is refused |
| Groups.DeleteGroup | src/core/model.cpp:288-302 | The group is erased and a neighbour takes over if it was active |
| Groups.GroupDeletedValid | src/core/model.cpp:288-302 | The application stays valid and loses exactly that group |
| GroupLaws.GroupDeletedOnly | src/core/model.cpp:288-302 | The others stay in their order; if the active one went, the one in its place is active, or the last, or none |
| Groups.ReorderGroup | src/core/model.cpp:320-332 | The group is taken out and put in at the target |
| Groups.GroupReorderedValid | src/core/model.cpp:320-332 | The application stays valid, with the same groups and the same active one |
| GroupLaws.GroupReorderedOnly | src/core/model.cpp:320-332 | The group stands at the target and the others in their order |
| Groups.ReorderSource | src/core/model.cpp:334-347 | The projection shown during a drag is the order the drop makes, for every source, target and position |
| Groups.AddPinnedLocation | src/core/model.cpp:519-523 | A location is pinned if it can be |
| Groups.LocationPinnedDistinct | src/core/model.cpp:511-523 | It can be exactly if the pins keep having names, no two the same |
| GroupLaws.PinnedLast | src/core/model.cpp:519-523 | A pin comes last, if it has a name that no other has |
| GroupLaws.UnknownGroupRefused | src/core/model.cpp:262-347 | What is asked of a group that is not there is refused |
| FreshIds.NextTabId | src/core/model.cpp:213-228 | The search ends, with the first id from the cursor on that no tab of the group has, and the cursor moves past it |
| FreshIds.NewTabIds | src/app_shell/main.cpp:2190-2201 | Ids taken with one cursor are free in the group and never repeat |
| FreshIds.SomeNumberIsFree | src/core/model.cpp:213-252 | Of more numbers than names in use one gives a free name: why the three searches end |
| FreshIds.NextGroupId | src/core/model.cpp:168-211 | The id is new; it is one more than the largest number unless an id cannot be ordered or, at the largest std::size_t, the wrapped one is taken, and then the first free timestamped one |
| FreshIds.NextNumberIsFree | src/core/model.cpp:191-200 | Short of the wrap-around one more than the largest number is never taken |
| FreshIds.ScanNumbers | src/core/model.cpp:170-186 | The scan finds the largest number or an id that cannot be ordered |
| FreshIds.NextGroupName | src/core/model.cpp:243-252 | The lowest free "Group N", N at least 1 |
| FreshIds.SetLayout | src/app_shell/main.cpp:2184-2204 | A valid group changes to another layout exactly when no pane of it bears a name that a new pane would get, and then keeps its panes, gets fresh ones and keeps tab ids distinct; otherwise nothing happens. Where panes are numbered by position it cannot fail, and they stay numbered |
| FreshIds.NamesUsable | src/app_shell/main.cpp:2194-2202 | Names by position are accepted exactly when no pane bears one of them |
| FreshIds.MisnumberedRefused | src/app_shell/main.cpp:2194-2204 | A valid group that cannot get a second pane: its only one bears the name of the second |
| FreshIds.MoveTabAcross | src/app_shell/main.cpp:2388-2396 | With the placeholder id found first, a move that finds its tab keeps the group valid and its tab ids distinct, and is the move of that tab to that index |
| IconCache.IconCache.Admit | src/app_shell/pane_list_icons.cpp:387-411 | An icon that is there already or can never fit changes nothing; otherwise no more of the least recently used make way than needed, none if there is room, and it is cached exactly if its bytes fit then and the native list takes it |
| IconCache.IconCache.Touch | src/app_shell/pane_list_icons.cpp:140-140 | A cached icon wanted again becomes the one used last, and the cache is otherwise as it was |
| IconCache.LastUsedGoesLast | src/app_shell/pane_list_icons.cpp:396-404 | Evictions take every other key before the one used last |
| IconCache.IconCache.MakeRoom | src/app_shell/pane_list_icons.cpp:396-404 | While there is no room the least recently used goes, and no more than needed: with the last that went put back there is none; the loop never looks for the least used of no entries |
| IconCache.IconCache.Remove | src/app_shell/pane_list_icons.cpp:401-403 | Erasing an image and repairing the slots keeps every key on its picture; a refusal changes nothing |
| IconCache.IconCache.Repair | src/app_shell/pane_list_icons.cpp:403-403 | The repair loop moves the slots above the freed one down |
| IconCache.DroppedMatched | src/app_shell/pane_list_icons.cpp:401-403 | Why the repair is right: the match of keys, slots and images is kept |
| IconCache.EverySlotTaken | src/app_shell/pane_list_icons.cpp:391-393 | The slots are all native indices from 2 to size + 1 |
| IconCache.CapacityIsLargest | src/app_shell/pane_list_icons.cpp:396-397 | The capacity is the largest number of icons up to 256 that fit with the two placeholders in 4 MiB |
| IconCache.BytesOwned | src/app_shell/pane_list_icons.cpp:396-406 | The bytes counted are those of all native images and all keys |
| IconCache.IconCache.Forget | src/app_shell/pane_managed_list.cpp:908-926 | Exactly the changed items' entries go, or the whole cache if an image cannot be removed |
| IconCache.IconCache.ItemImage | src/app_shell/pane_list_icons.cpp:252-268 | The picture shown is that of a matching key, else of the type, else the placeholder for folders or files |
| RowOrder.RowLessStrictWeak | src/app_shell/pane_managed_list.cpp:394-432 | The comparison by name, size or date is a strict weak order in both directions, and orders rows with different identities |
| RowOrder.GroupsFirst | src/app_shell/pane_managed_list.cpp:396-400 | New folders are ordered by their making, and folders and files apart, folders first when ascending, in both comparisons |
| RowOrder.ByNameReads | src/app_shell/pane_managed_list.cpp:406-408 | By name, as the system compares names, in the direction asked for |
| RowOrder.BySizeReads | src/app_shell/pane_managed_list.cpp:409-415 | By size, files by their bytes in the direction asked for; the size of folders is not looked at |
| RowOrder.ByDateReads | src/app_shell/pane_managed_list.cpp:416-422 | By date in the direction asked for, rows without one last in either |
| RowOrder.TiesRead | src/app_shell/pane_managed_list.cpp:427-431 | Rows with the same key: name without case, name, bytes, date, identity, whatever the direction |
| RowOrder.PropertyRowLessStrictWeak | src/app_shell/pane_managed_list.cpp:448-473 | So is the comparison by a property |
| RowOrder.PropertyReads | src/app_shell/pane_managed_list.cpp:448-473 | By a property: missing values last in either direction, numbers before texts when ascending, numbers by value, texts without case, then as for rows with the same key |
| RowOrder.RowCompareConsistent | src/app_shell/pane_managed_list.cpp:394-473 | A lexicographic comparison with empty keys last is consistent if its parts are |
| RowOrder.PropertyOrderUsable | src/app_shell/pane_list_properties.cpp:99-99 | The cooperative sort may order the rows with it |
| IncrementalSort.SortAppendedAndMerge | src/app_shell/incremental_sort.h:9-21 | Sorting the appended rows and merging sorts everything, in place |
| IncrementalSort.SortRows | src/app_shell/pane_managed_list.cpp:433-445 | With a sorted prefix, or one that is too long, the rows end up sorted |
| IncrementalSort.IncrementalIsFull | src/app_shell/incremental_sort.h:7-21 | With distinct identities the result is the very list that sorting everything gives |
| TabStrip.LayoutTabStrip | src/app_shell/tab_overflow.h:196-351 | The loops compute the specified rectangles |
| TabStripLaws.WidthsAsWished | src/app_shell/tab_overflow.h:208-214 | A tab is as wide as it prefers, within the bounds, as long as all fit |
| TabStripLaws.WidthsInProportion | src/app_shell/tab_overflow.h:187-239 | If they do not, it has the whole width nearest to its share of the room, or the minimum |
| TabStrip.RectsContiguous | src/app_shell/tab_overflow.h:323-341 | In drawing order the rectangles are side by side, from the start of the content to its end |
| TabStrip.DrawnFillsContent | src/app_shell/tab_overflow.h:271-291 | Whatever is dragged where, the drawn widths add up to the content width |
| TabStrip.EveryTabDrawn | src/app_shell/tab_overflow.h:271-291 | Every tab, and a foreign one, is drawn at exactly one position |
| TabStripLaws.DraggedStandsAtTarget | src/app_shell/tab_overflow.h:271-291 | Without a drag tabs stand in order; a dragged one stands at the target |
| TabStripLaws.OthersKeepOrder | src/app_shell/tab_overflow.h:271-291 | The others keep their order |
| TabStripLaws.PlaceholderAtTarget | src/app_shell/tab_overflow.h:323-341 | The placeholder is drawn at the target of the drag, and the dragged tab nowhere else |
| TabStrip.AtMostOneHit | src/app_shell/tab_overflow.h:353-363 | A point is in at most one tab or the placeholder |
| TabStrip.TabAt | src/app_shell/tab_overflow.h:353-363 | The hit test returns the tab under the point, if any |
| TabStrip.OffsetInRange | src/app_shell/tab_overflow.h:33-37 | The scroll offset is between 0 and the largest useful one |
| TabStrip.ActiveInView | src/app_shell/tab_overflow.h:293-321 | An active tab no wider than the viewport ends up fully inside it |
| TabStripLaws.ScrollsNoFurther | src/app_shell/tab_overflow.h:293-321 | No useful offset that shows the active tab is nearer to the one asked for |
| TabStripLaws.WideTabEdge | src/app_shell/tab_overflow.h:293-321 | Which edge of a tab too wide for the view is shown |
| TabStripLaws.ViewReads | src/app_shell/tab_overflow.h:21-31 | View and two buttons share the room, the buttons as wide as wished or as fits, and only if the tabs overflow |
| TabStrip.ScrollButtonsApart | src/app_shell/tab_overflow.h:120-137 | The two scroll buttons share no point and stay out of the add button's slot, the back one if its width is not negative |
| TabStripLaws.ButtonsMeet | src/app_shell/tab_overflow.h:102-137 | Buttons that fit meet in the middle of their halves, centred in the height |
| TabStripLaws.ButtonsShareOverlap | src/app_shell/tab_overflow.h:120-137 | How they are shifted and divided where they do not |
| TabStripLaws.VisualClipped | src/app_shell/tab_overflow.h:102-114 | A button is no larger than its half and placed by its offset |
| TabStripLaws.AddBesideTabs | src/app_shell/tab_overflow.h:241-254 | Add button, view and largest offset |
| TabStripLaws.NoButtons | src/app_shell/tab_overflow.h:256-270 | Without overflow there are no buttons |
| TabStripLaws.CloseInside | src/app_shell/tab_overflow.h:174-183 | The close button is a square inside its tab, there exactly if there is room for two |
| TabStrip.ShrunkFits | src/app_shell/tab_overflow.h:187-192 | Tabs wider than the room fit once shrunk if and only if what rounding drops is at least what rounding halves and the minimum width add, all computed from the wished widths |
| TabStrip.ContentFits | src/app_shell/tab_overflow.h:226-243 | So for every input: all tabs are visible without scrolling if and only if they have room as wished or that condition holds |
| TabStrip.ShrunkWithinHalves | src/app_shell/tab_overflow.h:187-192 | The shrunken widths miss the room, and what the minimum adds, by at most half a pixel a tab, either way |
| TabStrip.ShrunkMayOverflow | src/app_shell/tab_overflow.h:187-192 | Shrunken tabs do not always fit: three tabs of 101 with room for 302 and a minimum of 96 stay 101 wide |
| LayoutGeometry.PanesDisjoint | src/core/layout.cpp:59-208 | For all eight templates no point is in two panes, or in a pane and a splitter |
| LayoutGeometry.PanesLargeEnough | src/core/layout.cpp:49-55 | No pane is smaller than the minimum |
| LayoutGeometry.PanesInPlace | src/core/layout.cpp:59-143 | Which pane is left of which and above which, in every layout |
| LayoutGeometry.UnsuitedRatiosAreHalves | src/core/layout.cpp:65-67 | A list of ratios of another length counts as halves |
| LayoutGeometry.CoversExactlyIffFits | src/core/layout.cpp:59-208 | Panes and splitters cover the client area and nothing else exactly when both halves of every split have room |
| LayoutGeometry.DraggedDividerStays | src/core/layout.cpp:210-217 | A divider dragged within the minimums yields a first pane of exactly that size |
| LayoutGeometry.BarsFollowRatios | src/core/layout.cpp:145-208 | There is a bar for each ratio, with its index, upright or level, where its ratio says |
| LayoutGeometry.DraggedBarStays | src/core/layout.cpp:145-217 | Setting the ratio of a bar by dragging puts it where it was dragged and leaves the other where it was |
| LayoutGeometry.RoundsToNearest | src/core/layout.cpp:53-53 | The first part is rounded to the nearest, halves away from zero |
| LayoutGeometry.RatioAtIsRatio | src/core/layout.cpp:210-217 | A drag gives a ratio between 0 and 1, or none without room |
| Columns.ParseFormat | src/core/columns.h:59-93 | parse_columns() undoes format_columns() on every canonical list |
| Columns.ParseCanonical | src/core/columns.h:59-84 | It makes a canonical list of any text |
| Columns.ParseIdempotent | src/core/columns.h:59-93 | So it is an idempotent normalizer |
| Columns.ParseColumns | src/core/columns.h:59-84 | Its loop reads the specified columns |
| Columns.TokenReads | src/core/columns.h:63-79 | What a token gives: id, width within bounds, or the default where there is no width |
| Columns.TokenAdds | src/core/columns.h:63-79 | The first token for a column counts, and one without an id is passed over |
| Columns.NameComesFirst | src/core/columns.h:80-83 | Name comes first with its width, or 320, and the others keep their order |
| Columns.DefaultWidths | src/core/columns.h:25-32 | The known columns and the widths they start with |
| Columns.NoSettingReads | src/core/columns.h:42-61 | No setting means the four default columns |
| Columns.FormatColumns | src/core/columns.h:86-93 | The loop of format_columns() writes the specified text |
| Columns.ToggledCanonical | src/core/columns.h:117-123 | Toggling keeps a list canonical, and showing a hidden column can be undone |
| Columns.CaptureColumns | src/core/columns.h:129-138 | The loop of captured_columns() gives the specified setting |
| Columns.UnknownColumnsSurvive | src/core/columns.h:125-138 | No column unknown to this build is dropped, whatever is shown |
| Columns.HiddenColumnsGo | src/core/columns.h:125-138 | A known column that is not shown is not in the setting |
| Columns.WidthSurvives | src/core/columns.h:105-110 | A stored width survives the screen at every resolution of at least 96 DPI |
| Columns.WidthsSurviveIff | src/core/columns.h:105-110 | Every width a setting can hold survives the screen if and only if the resolution is at least 96 DPI, or unknown |
| Columns.LowResolutionChangesWidth | src/core/columns.h:105-110 | One that does not: 102 comes back as 103 at 72 DPI |

## Left out

- Windows, painting, menus, dialogs, COM, drag and drop, file operations and context menus: user interface and foreign calls.
- The disk's caches, the creation of the session directory and its permissions: only the outcome of each step is modelled.
- Stack depth: the parser's recursion is unbounded here as it is in the source, and running out of memory is not modelled.
- ShutdownProtocol.Application.Run: only the action the reducer has just returned is run, as by every caller in the source, although the method is public there.
- ShutdownProtocol.Application.EndSessionConfirmed: no calls come in during the checkpoint or an ordinary save, because neither pumps messages in the source.
- ShutdownProtocol.AnyRun: states nothing about a close asked for before the main window exists, which the source has nowhere to post to.
- Shutdown.ShutdownSequence.Step: the depth of Shell calls and the number of drags do not wrap around at 2^32.
- FreshIds.NextTabId: the cursor does not wrap around at 2^64.
- FreshIds.NextGroupId: the timestamp is any integer, the clock being outside the model.
- LayoutGeometry.PanesDisjoint: sizes are unbounded integers and ratios exact reals, without the rounding of double multiplication.
- LayoutGeometry.DraggedDividerStays: the ratio is an exact quotient of integers; that the source divides and multiplies doubles, and may be off by a pixel for it, is not modelled.
- LayoutGeometry.CoversExactlyIffFits: the two splitters of the four-pane grid cross, so splitters are not claimed to be disjoint from each other.
- TabStrip.LayoutTabStrip: widths and sums are unbounded integers; glyphs and corner radii of the scroll buttons are painting.
- Columns.WidthSurvives: pixel widths are unbounded, without the cast to int.
- IconCache.IconCache.Admit: the requests, their freshness and the rastering are outside; whether the image list takes or removes an image is an input, and the cache may then exceed its number of icons, though never its bytes.
- RowOrder.PropertyRowLessStrictWeak: numbers are reals, without the not-a-number values of long double.
- JsonParser.Parser.Number: overflow and underflow of a number are part of the assumed reading of numbers.
- The realization plan, key routing, control ids, group transitions, tab drag thresholds, window placement, the bounded LRU list and address text: they would only add easy results.
- The row store, list workers, icon workers and property requests of the managed list.
