# Verified models of the pgBackRest core

These Dafny modules model seven parts of the repository and prove what each of them keeps over whole runs or for
every input. Each model takes the branches, constants and error conditions of the C code it follows; where the
code and its comments disagree, the model follows the code.

| part | modules | source |
|---|---|---|
| memory contexts | `Slots`, `MemTree`, `MemTeardown`, `MemHeap`, `MemStack`, `MemContexts` | `src/common/memContext.c` |
| JSON validation, strict INI, info files | `Json`, `JsonDocs`, `Ini`, `Info`, `InfoStream` | `src/common/type/json.c`, `src/common/ini.c`, `src/info/info.c` |
| lock files | `Lock`, `LockProcess` | `src/common/lock.c` |
| option merge and group indexes | `OptionMerge`, `OptionCases`, `OptionGroup` | `src/config/parse.c`, `src/config/config.c` |
| Base64, Base64Url, hex | `Encode` | `src/common/encode.c` |
| calendar, backoff | `Calendar`, `Wait` | `src/common/time.c`, `src/common/wait.c` |
| call stack parameters | `StackTrace` | `src/common/stackTrace.c` |

## What the models are

**Memory contexts.** `MemContexts.Manager` is the allocator's state: the context headers by address, the heap of live
blocks, the stack array and its two indexes. Its methods are the operations of the C file, changed in place. They are
proved against specifications on values: `Slots` (the slot lists and their search hint), `MemTree` (contexts as a
tree, with a rank as witness), `MemTeardown` (the order in which blocks are released and callbacks run), `MemHeap`
(who owns which block) and `MemStack` (the stack and its unwinding). The main results are that every interleaving of
new, move and free keeps the tree and never overwrites an occupied slot; that free releases the blocks of a subtree
exactly once and nothing else, also when a callback throws; that no block is released after one that leads to it; that size
is what free gives back; and that unwinding after an error at any step of a TRY block restores stack and indexes and
frees exactly the contexts created and not kept, by a definition of "not kept" that reads only the operations, if and
only if no callback of them throws. Blocks may move and free contexts on the way, under the exact condition for that
to keep the stack in order, and may hold inner TRY blocks that catch errors.

**Info files.** `Info.Saver` writes and hashes, `Ini.Reader` reads lines and retries at every `=`, `Info.Loader`
hashes and interprets. The validator of `json.c` is modelled as it is, with its commas, its number overflow and its
unchecked character after a unicode escape, and with and without the assertions that a debug build compiles in
(parameter `checked`). The retry loop is correct for a lexical reason: a text accepted as JSON ends outside every
string and has no `=` outside its strings, and reading it from inside a string flips every quote. `JsonDocs` shows what
the validator does accept: every document, with white space wherever JSON allows it. `InfoStream` says what an info
file and the stream hashed for it are as a whole: one section, and one member of a JSON object, per run of entries.

**Lock files.** `Lock` is a state machine over single system calls (open, flock, read, write, unlink, close, end of
a process) of any number of processes and readers. `LockProcess.Locks` is one process's lock list; between any two
of its calls all other processes may take any steps (`Locks.Others` has a contract that leaves open which).

**Options.** `OptionMerge.Parser` processes arguments, environment and file sections in place, over an arbitrary table
of rules; `OptionCases` says case by case what an argument, a variable or a key means. `OptionGroup.Group` holds the
index map and the value arrays and compacts them with a memmove loop.

**Encodings, calendar, backoff, parameter buffer** follow their files function by function.

## Results that differ from what comments promise

- A key with several `=` is not always recovered. The retry loop gets to the written `=` exactly when the validator
  refuses, with a JSON format error, the text after each `=` of the key (`Ini.RecoversIff`, for builds with and
  without assertions). With assertions the only other outcome is an error that is no format error, such as a number
  too large for 64 bits, and the reader fails on the line (`Ini.LargeNumberTrips`). A backslash at the very end of the
  text counts as such an error as well: there the C code reads past the terminator, which C leaves undefined. Without
  assertions it may also stop at an earlier `=` (`Ini.StopsTooEarly`), because a string may then be entered at a
  comma; a line on which no comma stands where a value should start, in front of a string, is read alike in both
  (`Ini.NoStrayCommaRecovers`). A key without `=` is always recovered.
- An array with leading white space gets past the writer's test for arrays, and under a key that begins with a
  bracket its line is taken for a section header (`Info.ArrayTakenForHeader`; `Info.LineReadIff` gives the exact
  condition for a line to be read back, in both builds).
- The lock code does not look at the inode again after flock. Its safety holds in exactly the runs in which every
  successful flock happens while the name still leads to the flocked file (`Lock.SafeIffFresh`); `Lock.TwoHolders`
  is a run of three processes that breaks it. A reader may report an orderly released file as unlocked
  (`Lock.UnlockedAfterRelease`): "unlocked" means that the last writer ended without completing its release exactly
  when that writer did not close the file between the reader's open and flock (`Lock.UnlockedExact`). A lock taken by
  a matching exec id may rest on a dead process (`Lock.SiblingOfNobody`) and may even stand beside the lock of a
  foreign process (`Lock.SiblingOfForeign`); it rests on the process that wrote the exec id exactly when that one has
  neither ended nor released the file (`Lock.SiblingBackedIff`).
- Unwinding ends early if and only if the error is not fatal and some callback in the subtree of a new entry of the
  try depth throws (`MemContexts.Manager.Clean`), that is, some callback of a context left behind
  (`MemStack.CleanAfterError`). It then stops at the topmost such entry: the contexts below the new entries from there
  on are gone, the entry is still on the stack, and its context is no longer there (`MemStack.CutOffByThrow`); a
  discard that throws leaves the same (`MemStack.DiscardStops`). The TRY block of `memContextFree` passes the error on
  to a block that has not yet got to its catch state, so the handler runs once more and frees that same context a
  second time (`src/common/error/error.c:315-375`); `MemContexts.ThrowWhileCleaning` is such a run.
- Compaction of an option group also renumbers a single position that is kept but was not the first, although the
  comment speaks of a position holding only defaults (`OptionGroup.KeysKeptIff`, `OptionGroup.SecondKeyRenamed`).
- The extra bytes of a context are padded after their 16-bit limit has been checked: the last seven sizes are recorded
  as no extra bytes at all, and the size of such a context comes out too small (`MemContexts.ExtraRecordedIff`,
  `MemContexts.Manager.Size`).
- The pg group's map is written past its space exactly when some key but not key 1 is in use
  (`OptionGroup.Group.Resolve`, `OptionGroup.SecondKeyOnly`).
- Epochs are computed in 32-bit ints; they fit through 2037 and in 2038 exactly up to the last second that fits the
  result (`Calendar.FitsIff`, `Calendar.FirstOverflow`). Offsets of less than an hour behind universal time cannot
  be expressed (`Calendar.OffsetReached`).
- The header comment of the info file names SHA-256 and the code uses SHA-1. The model takes any function of the
  hashed stream.

## Model

| member | source | states |
|---|---|---|
| `Slots.FindSlot` | `src/common/memContext.c:537-558` | the search from the hint, growing the list only when it finds nothing, is the first free slot at or after the hint |
| `Slots.HintExactStep` | `src/common/memContext.c:773-811` | the hint of an allocation list has only live slots below it, before and after every operation |
| `Slots.RunKeepsHint` | `src/common/memContext.c:919-926` | that holds after every run of new, resize and free |
| `Slots.NewTakesLowest` | `src/common/memContext.c:773-811` | in every run the hinted search takes the lowest free slot, and the list grows only when all its slots are live |
| `Slots.CapacityBound` | `src/common/memContext.c:786-800` | in every run the capacity is at most the larger of 4 and twice the most allocations ever live |
| `Slots.GrowthExact` | `src/common/memContext.c:786-800` | a list starts with four slots and doubles exactly when no slot from the hint on is free |
| `MemTree.NewKeepsTree` | `src/common/memContext.c:628-646` | a new context takes a free slot of its parent and the contexts stay a tree |
| `MemTree.MovedFacts` | `src/common/memContext.c:936-994` | a move empties the old slot, fills a free one of the new parent, and tells the context its new parent |
| `MemTree.MoveKeepsTree` | `src/common/memContext.c:936-994` | moving a context outside its own subtree keeps the tree and never frees or fills any other slot |
| `MemTree.FreeKeepsTree` | `src/common/memContext.c:1375-1394` | freeing removes exactly the subtree, empties only its slot in the parent, and keeps the tree |
| `MemTree.OccupiedSlotKept` | `src/common/memContext.c:515-561` | no operation overwrites an occupied slot of a surviving context, also when lists grow |
| `MemTree.KidHints` | `src/common/memContext.c:515-561` | a child list keeps its hint as an allocation list does, except that moving a context leaves both hints alone |
| `MemTree.InsertElsewhere` | `src/common/memContext.c:628-646` | a new context changes nothing but the child list of its parent |
| `MemTree.MovedElsewhere` | `src/common/memContext.c:936-994` | a move changes nothing but two child lists and the place of the context |
| `MemTree.FreedElsewhere` | `src/common/memContext.c:1375-1405` | what survives a free is unchanged but for the slot in the parent; the top context is left with no children and no allocations |
| `MemTree.RunKeepsTree` | `src/common/memContext.c:936-994` | after any interleaving of new, move and free every context hangs below the top and every parent's slot holds exactly the child that claims it |
| `MemTeardown.FreeOrderExact` | `src/common/memContext.c:1307-1409` | the release order lists each block of the subtree exactly once and no block outside it |
| `MemTeardown.ReleasedInReach` | `src/common/memContext.c:1307-1409` | nothing is released after a block that leads to it: descendants before child lists and headers, allocations before their list |
| `MemTeardown.CallOrderExact` | `src/common/memContext.c:1258-1304` | the callback order lists each callback of the subtree exactly once, parents before children |
| `MemTeardown.OwnBytes` | `src/common/memContext.c:1131-1212` | the bytes of one context's blocks, as they are and as they are recorded, are its lists, its allocations and its header |
| `MemTeardown.RecordedExactIff` | `src/common/memContext.c:1131-1212` | the recorded bytes of some blocks are their bytes if and only if no allocation has 32 bits or more and no extra block 16 bits or more to its size |
| `MemHeap.HeapUpdate` | `src/common/memContext.c:741-815` | changing one context and its own blocks leaves every other context's blocks its own |
| `MemHeap.AllocKept` | `src/common/memContext.c:741-815` | a new allocation is recorded in a free slot that the block itself remembers, also when the list grows or moves |
| `MemHeap.AllocChanged` | `src/common/memContext.c:820-851` | a resized or freed block is replaced in its own slot and no other block changes owner |
| `MemHeap.FreeGivesBack` | `src/common/memContext.c:1131-1212` | the size of a subtree is the drop in live bytes when its blocks are released |
| `MemHeap.TouchedFreed` | `src/common/memContext.c:1411-1436` | tearing down after the callback pass, complete or cut off, leaves what tearing down before it would leave |
| `MemStack.FreeTopFacts` | `src/common/memContext.c:1221-1254` | freeing the context on top of the stack never frees the current context or another one on the stack |
| `MemStack.StepKeepsValid` | `src/common/memContext.c:997-1094` | new, switch, switch back, keep, discard, a move or free that fits, and an error caught by an inner TRY block keep the two indexes and the stack consistent |
| `MemStack.MoveKeepsStackIff` | `src/common/memContext.c:936-994` | a move keeps the stack in order if and only if it brings no context that is lower on the stack below one that waits to be kept |
| `MemStack.FreeKeepsStackIff` | `src/common/memContext.c:1411-1436` | freeing a context keeps the stack in order if and only if every context on the stack survives it |
| `MemStack.CleanFrees` | `src/common/memContext.c:1221-1254` | unwinding pops exactly the entries of the try depth and frees exactly the subtrees of the new ones; a fatal error frees nothing |
| `MemStack.NetIsHeight` | `src/common/memContext.c:648-656` | in a bracketed run the stack is what was there before and the open brackets, read off the operations alone; where no error was caught these are the openings less the closings |
| `MemStack.PendingAt` | `src/common/memContext.c:1054-1094` | every new entry on the stack comes from a creation that no later operation kept, discarded or unwound |
| `MemStack.CleanAfterError` | `src/common/memContext.c:1221-1254` | cut off at any step, a TRY block that creates, switches, keeps, discards, moves, frees and catches errors of inner blocks leaves after cleaning the stack, both indexes and exactly the contexts that are not below a creation left pending; cleaning is cut off by a callback if and only if one below such a creation throws |
| `MemStack.CutOffByThrow` | `src/common/memContext.c:1221-1254` | where a callback cuts cleaning off, exactly the contexts below pending creations from its height on are gone, and the top entry names a context that is gone |
| `MemStack.StopsOnce` | `src/common/memContext.c:1234-1250` | unwinding is cut off if and only if there is a topmost entry with a callback that throws, and there is only one |
| `MemStack.DiscardStops` | `src/common/memContext.c:1075-1094` | a discard cut off by a callback leaves what unwinding cut off at the same entry leaves |
| `MemContexts.Manager.Free` | `src/common/memContext.c:1411-1436` | callbacks run first, parents before children, up to the first that throws; then all blocks of the subtree are released in order and nothing else changes but the slot in the parent; the stack stays valid if no context on it is freed |
| `MemContexts.Manager.CallbackRecurse` | `src/common/memContext.c:1258-1304` | runs exactly the specified callbacks in order and touches the subtree alone; if none throws, every context of it is inactive with its callback cleared |
| `MemContexts.Manager.FreeRecurse` | `src/common/memContext.c:1307-1409` | releases the blocks of the subtree in exactly the specified order while each child empties its slot in the list being walked |
| `MemContexts.Manager.ReleaseOwn` | `src/common/memContext.c:1340-1373` | releases list, allocations and header of one context, each once |
| `MemContexts.Manager.Size` | `src/common/memContext.c:1131-1212` | is what is recorded of the blocks of the subtree, plus the static header for the top context, and equals their bytes if and only if every block fits its record |
| `MemContexts.Manager.Switch` | `src/common/memContext.c:997-1020` | pushes a switch entry and makes it current |
| `MemContexts.Manager.SwitchBack` | `src/common/memContext.c:1023-1051` | pops a switch and finds the one below it |
| `MemContexts.Manager.Keep` | `src/common/memContext.c:1054-1072` | pops a new context without freeing it |
| `MemContexts.Manager.Discard` | `src/common/memContext.c:1075-1094` | frees a new context and its blocks and pops it; if and only if one of its callbacks throws its entry stays on the stack |
| `MemContexts.Manager.Clean` | `src/common/memContext.c:1221-1254` | the loop with its two indexes is the unwinding of the specification, and is cut off if and only if the error is not fatal and a callback it is to run throws; then it has stopped at the topmost such entry; either way exactly the blocks of the contexts left are left |
| `MemContexts.ThrowWhileCleaning` | `src/common/memContext.c:1221-1254` | creating a context, setting a callback that throws and cleaning ends with that context freed and its entry next to be freed |
| `MemContexts.Manager.CallbackSet` | `src/common/memContext.c:691-717` | sets the callback of a context that has room for one; a second one is refused with assertions and replaces the first without |
| `MemContexts.Manager.CallbackClear` | `src/common/memContext.c:720-736` | clears the callback and nothing else |
| `MemContexts.Manager.New` | `src/common/memContext.c:564-660` | the new context has the quantities, callback room and padded extra asked for, no callback, no children and no allocations, and is a child of the current one waiting on the stack; the heap gains its header of the size of its parts, and otherwise only the child list of the parent may change |
| `MemContexts.ExtraRecordedIff` | `src/common/memContext.c:586-622` | the record has room for the extra bytes asked for if and only if padding them does not pass 16 bits |
| `MemContexts.Manager.Move` | `src/common/memContext.c:936-994` | re-parents a context; every block stays but the child list of the new parent, which may be made or grow; the stack stays valid if the move fits |
| `MemContexts.Manager.MoveIfElsewhere` | `src/common/memContext.c:946-948` | moving no context, or to the parent it has, does nothing |
| `MemContexts.Manager.AllocNew` | `src/common/memContext.c:741-815` | adds one block of the current context in the slot of the hinted search; its list may be made or grow and all else stays |
| `MemContexts.Manager.AllocResize` | `src/common/memContext.c:820-851` | the block may move and keeps its slot |
| `MemContexts.Manager.AllocFree` | `src/common/memContext.c:895-933` | releases the block, empties its slot and lowers the hint to it |
| `Json.ValueScanned` | `src/common/type/json.c:866-934` | what the validator skips as a value begins and ends outside strings and has no `=` and no backslash outside them |
| `Json.ParityFlips` | `src/common/ini.c:152-197` | a reader started inside a string and one started outside never both end outside |
| `Json.ValidAfterEqual` | `src/common/ini.c:152-197` | the text after an `=` inside accepted JSON is never itself accepted |
| `Json.ValidateAgrees` | `src/common/type/json.c:1287-1311` | a build without assertions decides as one with them unless that one fails with an uncaught error |
| `Json.CommaStartsString` | `src/common/type/json.c:224-339` | without assertions a string that starts at a comma is accepted |
| `Json.NoStrayCommaAgrees` | `src/common/type/json.c:224-339` | a text on which builds with and without assertions differ has a comma where a value should start, in front of a string |
| `Json.ReadWrite` | `src/common/type/json.c:951-1072` | reading back what the string writer wrote gives every text again, also behind white space |
| `Json.QuoteValid` | `src/common/type/json.c:1686-1784` | written strings are valid in every build and hold no line feed |
| `JsonDocs.PrintValid` | `src/common/type/json.c:866-934` | every document of null, booleans, integers of 64 bits, strings, arrays and objects is valid in every build, with any white space in front of any part and behind it |
| `JsonDocs.ValueIn` | `src/common/type/json.c:866-934` | a value that is skipped in a text is skipped wherever that text stands |
| `JsonDocs.NumberRange` | `src/common/type/json.c:400-441` | a number is read if and only if it fits 64 bits, and otherwise the error is no format error |
| `JsonDocs.NumberReadBack` | `src/common/type/json.c:400-441` | reading back a number gives the number |
| `JsonDocs.EscapesAre` | `src/common/type/json.c:1686-1784` | which characters are written as escapes, and which |
| `JsonDocs.EscapesRead` | `src/common/type/json.c:951-1072` | which escapes are read, and what for; all others are refused |
| `JsonDocs.CommaAndColonRequired` | `src/common/type/json.c:288-331` | elements and members without a comma between them, and keys without a colon, are refused |
| `Ini.RetryFindsSeparator` | `src/common/ini.c:146-197` | with assertions, for every key and valid value the retry loop stops at the written `=` or, exactly when it trips on the way, fails |
| `Ini.RetryReaches` | `src/common/ini.c:171-188` | in every build the retry loop gets to the written `=` if and only if the validator refuses the text after each `=` before it |
| `Ini.RetryFirst` | `src/common/ini.c:146-197` | on any line the loop stops at a position if and only if it holds an `=`, valid text follows, and the text after each `=` before it is refused with a format error |
| `Ini.RetryAgrees` | `src/common/ini.c:171-188` | a build without assertions stops where one with them stops, when that one does not fail |
| `Ini.RecoversIff` | `src/common/ini.c:146-197` | in every build key and value are recovered if and only if the validator of that build answers with a format error for the text after each `=` of the key |
| `Ini.SeparableIff` | `src/common/ini.c:169-188` | with assertions that is so if and only if no such text makes the validator fail with an error other than a format error |
| `Ini.NoStrayCommaRecovers` | `src/common/ini.c:146-197` | on a line in which no comma stands in front of a string after `=`, `[`, `{` or `:`, builds without assertions recover exactly what those with them recover |
| `Ini.PlainKeySeparable` | `src/common/ini.c:146-197` | a key without `=` is always recovered |
| `Ini.LargeNumberTrips` | `src/common/ini.c:169-188` | a valid value behind a key with an overlong number after an `=` makes the reader fail in every build |
| `Ini.StopsTooEarly` | `src/common/ini.c:146-197` | a build without assertions stops at an `=` inside the key of a concrete line |
| `Ini.Reader.SplitLine` | `src/common/ini.c:146-197` | the loop computes the retry specification and splits the line there |
| `Ini.Reader.ValueNext` | `src/common/ini.c:99-218` | reads on to the next entry, section headers and blank lines included, or fails as specified |
| `Ini.HeaderLines` | `src/common/ini.c:118-139` | empty lines are skipped, and a name in brackets is the section from there on unless it is empty |
| `Ini.EntryLines` | `src/common/ini.c:140-215` | any other line is an entry with the key and value around its separator, and fails without a section, a separator or a key |
| `Ini.Reader.ValueAll` | `src/common/ini.c:99-218` | reads a whole text as the specification does |
| `Info.LineReadIff` | `src/info/info.c:289-341` | in every build a saved line is read back as its entry if and only if the key is separable in that build and the line does not look like a header |
| `Info.ArrayTakenForHeader` | `src/common/ini.c:127-139` | an array behind white space under a bracket key is taken for a header, and the entry is not read back |
| `InfoStream.DocLineRead` | `src/common/ini.c:146-197` | in every build any document under a plain key is read back as its entry |
| `Info.ReadSaved` | `src/info/info.c:289-402` | reading saved text gives exactly the saved entries, each under its section and key, and goes on behind them |
| `Info.FileRead` | `src/info/info.c:344-402` | a whole saved file is read as its entries followed by the checksum entry |
| `Info.Saver.SaveValue` | `src/info/info.c:289-341` | appends the specified text and hash stream, with a header when the section changes |
| `InfoStream.StreamIsObject` | `src/info/info.c:49-105` | the stream hashed is one JSON object with a member for each run of equal sections, whose members are the quoted keys, a colon and the values, in order |
| `InfoStream.StreamValid` | `src/info/info.c:49-105` | that stream is valid JSON if the values are and no section name holds a quote or a backslash |
| `InfoStream.TextIsSections` | `src/info/info.c:310-341` | the text saved is a header and the lines of each such run, with an empty line between them |
| `InfoStream.RunsExist` | `src/info/info.c:310-330` | the entries always fall into such runs |
| `InfoStream.OwnEntriesText` | `src/info/info.c:374-398` | the text of the entries of the file itself and of its checksum line |
| `Info.Save` | `src/info/info.c:344-402` | writes the header entries, what the callback saves in section order, and the checksum |
| `Info.Loader.Take` | `src/info/info.c:157-245` | hashes and interprets one entry as specified |
| `Info.Load` | `src/info/info.c:132-267` | accepts, rejects and delivers as specified for every text |
| `Info.LoadSaved` | `src/info/info.c:132-267` | loading saved text restores version and passphrase and delivers the callbacks' entries |
| `Info.EntryCases` | `src/info/info.c:185-245` | what each key of the file's own sections requires and sets; all other sections go to the callback |
| `Info.ExchangedChecksum` | `src/info/info.c:247-260` | a file with another checksum line loads if and only if that is the hash of what it holds |
| `Info.StreamsEqualIff` | `src/info/info.c:157-183` | the stream hashed while loading equals the one hashed while saving if and only if no callback saved a checksum entry |
| `Info.ShorterStream` | `src/info/info.c:310-334` | leaving an entry out always changes the stream, whatever headers it shifts |
| `Info.SavedFileLoads` | `src/info/info.c:247-260` | every saved file whose callbacks did not name an entry like one of the file's own passes its own checksum test, for every hash function, and gives everything back |
| `Info.SavedFileOutcome` | `src/info/info.c:132-267` | any saved file, whatever its callbacks named their entries: an entry the loader cannot use is a format error, and otherwise the hashes of the two streams decide |
| `Info.SavedFilePasses` | `src/info/info.c:247-260` | a file whose callbacks saved no checksum entry never fails its own checksum test |
| `Lock.StepKeepsInv` | `src/common/lock.c:189-246` | every system call keeps descriptors, flocks, names and history consistent |
| `Lock.RunKeepsInv` | `src/common/lock.c:166-475` | so does every run of any number of processes and readers |
| `Lock.NeverRelinked` | `src/common/lock.c:451-468` | a file that lost its name never gets it back |
| `Lock.SafeIffFresh` | `src/common/lock.c:189-246` | in any run holders keep their own file at the name throughout if and only if no flock succeeded on a file its name had stopped leading to |
| `Lock.OneHolderPerName` | `src/common/lock.c:189-293` | in such a run a name has at most one holder that has not begun release |
| `Lock.UnlinkRemovesOwnFile` | `src/common/lock.c:451-468` | in such a run a release unlinks its own file and no other process holds it |
| `Lock.UndisturbedIsFresh` | `src/common/lock.c:197-213` | runs in which no unlink falls between another process's open and flock of the name are such runs |
| `Lock.UnlockedWriterGone` | `src/common/lock.c:318-330` | the last writer of a written file that a reader finds unlocked ended or released it; it ended without releasing if the file is still linked, and released it if it has not ended |
| `Lock.UnlockedExact` | `src/common/lock.c:318-330` | that writer ended without completing its release if and only if it did not close the file between the reader's open and flock |
| `Lock.UnlockedMeansEnded` | `src/common/lock.c:318-330` | with no unlink between the reader's open and flock its last writer ended without completing its release |
| `Lock.TwoHolders` | `src/common/lock.c:189-246` | a run after which two processes hold one name |
| `Lock.OverlapIsDisturbed` | `src/common/lock.c:189-246` | that run has an unlink between an open and its flock |
| `Lock.UnlockedAfterRelease` | `src/common/lock.c:318-330` | a run in which a released file is reported unlocked though nobody ended |
| `Lock.SiblingOfNobody` | `src/common/lock.c:237-242` | a run after which a lock by exec id exists and no process owns any flock |
| `Lock.SiblingOfForeign` | `src/common/lock.c:237-242` | a run without any unlink after which a lock by exec id exists beside the lock of a process with another exec id |
| `Lock.SiblingBackedIff` | `src/common/lock.c:227-242` | in every run a lock by exec id rests on the flock of the process that wrote the exec id if and only if that process has neither ended nor released the file |
| `Lock.ReadDecides` | `src/common/lock.c:237-242` | a refused process goes on with the name if and only if the file reads as its own exec id |
| `Lock.TextIsLastWrite` | `src/common/lock.c:365-427` | in every run a file reads as an exec id if and only if its last write was completed by a process of that exec id |
| `Lock.SiblingIffLastWrite` | `src/common/lock.c:215-242` | so in every run a refused process goes on if and only if a process of its exec id completed the last write |
| `LockProcess.OthersKeep` | `src/common/lock.c:53-70` | steps of other processes never change where a process stands |
| `LockProcess.Locks.Acquire` | `src/common/lock.c:166-293` | the outcome and the calls made in every case; a refused attempt is a lock by exec id if and only if the text read was this process's exec id, and none otherwise; a lock of its own is flocked and written, and unless a flock went stale nobody else holds the name |
| `LockProcess.Locks.TryLock` | `src/common/lock.c:189-246` | open and flock, then, when refused, lock by exec id if and only if the text read is this process's exec id |
| `LockProcess.Locks.Write` | `src/common/lock.c:365-427` | the file reads as this process's text; names not listed and locks by exec id are refused |
| `LockProcess.Locks.Release` | `src/common/lock.c:430-475` | empties the list with exactly one unlink and then one close per own lock, in order, and leaves nothing held |
| `LockProcess.Locks.Find` | `src/common/lock.c:179-180` | finds a listed name or reports that there is none |
| `OptionMerge.Parser.IdxValue` | `src/config/parse.c:335-384` | makes room for a key index; every value stored before is still there and new ones are not found |
| `OptionMerge.Parser.CommandLine` | `src/config/parse.c:1735-1905` | succeeds exactly when every option on the command line resolves and no use contradicts or repeats an earlier one, and collects the uses; words that are no option are passed over |
| `OptionCases.ValueOption` | `src/config/parse.c:1750-1820` | `--name=value` gives the value, `--name` the next word, which is used up, or y for a bool-like option; without a word it is refused |
| `OptionCases.BooleanOption` | `src/config/parse.c:1773-1789` | a boolean takes y, n or nothing, and n negates it or is its value if it is bool-like |
| `OptionCases.NegatedOption` | `src/config/parse.c:1811-1822` | a negation or reset takes no value; the negation of a bool-like option is the value n |
| `OptionCases.RefusedNames` | `src/config/parse.c:1763-1834` | unknown names and secure options are refused in any form |
| `OptionCases.WordsAndDashes` | `src/config/parse.c:1740-1743` | words that are no option are passed over, and a single dash is refused |
| `OptionCases.GivenTwice` | `src/config/parse.c:1850-1905` | an option given twice is accepted exactly when it is plain both times, may be multiple and has an argument the second time |
| `OptionMerge.NextUseOk` | `src/config/parse.c:1850-1905` | the checks on a slot already found are exactly that the use may follow every earlier one |
| `OptionMerge.Parser.Environ` | `src/config/parse.c:1995-2076` | succeeds exactly when every eligible variable has a value and every effective one converts |
| `OptionCases.VariableTaken` | `src/config/parse.c:2014-2040` | a variable is taken if and only if it names an option, neither negated nor reset, that is valid for the command |
| `OptionCases.BooleanOffer` | `src/config/parse.c:2055-2061` | a boolean value is y or n, and n negates |
| `OptionCases.ValueOffer` | `src/config/parse.c:2062-2073` | any other value is taken as it is, or split at colons in the environment if the option may be multiple; an empty one is refused |
| `OptionCases.ListOffer` | `src/config/parse.c:2203-2214` | a key given more than once needs an option that may be, and keeps all its values |
| `OptionMerge.Parser.ReadSection` | `src/config/parse.c:2123-2247` | succeeds exactly when the section has no two names for one option and key and every effective entry converts |
| `OptionCases.KeyTaken` | `src/config/parse.c:2133-2199` | a key is taken if and only if it names a valid option, neither negated nor reset, that may stand in the file and in this kind of section |
| `OptionCases.AlternateNames` | `src/config/parse.c:2160-2178` | two keys are alternate names exactly when both may stand in the file and mean the same option and key index |
| `OptionMerge.KeyNumberExact` | `src/config/parse.c:2164-2175` | the number remembered for an option and key belongs to no other |
| `OptionMerge.Parser.ConfigFile` | `src/config/parse.c:2102-2248` | the same over all sections in order |
| `OptionMerge.Parser.Parse` | `src/config/parse.c:1991-2248` | for a given command and configuration text, the merge succeeds exactly when the sources are acceptable, and every value is the command line's or else that of the first offer |
| `OptionMerge.FirstSourceWins` | `src/config/parse.c:2046-2206` | the first offer of the first source that has one gives the value |
| `OptionMerge.OrderOfSources` | `src/config/parse.c:2110-2120` | the offers come from environment, stanza:command, stanza, global:command, global |
| `OptionMerge.NegateHidesLater` | `src/config/parse.c:1829-1848` | after a negation or reset on the command line flags and list are the command line's alone, whatever later sources offer; the list is empty unless the negation was written with an argument |
| `OptionMerge.WinnerIs` | `src/config/parse.c:2046-2206` | the merged value of every option and key is the one looked up from the sources: what the command line made of it, else the first offer converted, else nothing |
| `OptionMerge.StanzaNamed` | `src/config/parse.c:2104-2108` | the sections searched are those of the first stanza given on the command line, else of the first offer of one, else of none |
| `OptionMerge.SplitJoin` | `src/config/parse.c:2063-2067` | splitting a list loses nothing and leaves no separator in a piece |
| `OptionGroup.Scan` | `src/config/parse.c:2253-2306` | a key index is marked if and only if some option of the group has a value for it that was not reset, and the total counts the marks |
| `OptionGroup.Group.Resolve` | `src/config/parse.c:2318-2359` | the map lists exactly the keys in use in ascending order, or key index 0; it fits if and only if the pg group uses key 1 or no key |
| `OptionGroup.SecondKeyOnly` | `src/config/parse.c:2318-2359` | a pg option under key 2 alone does not fit |
| `OptionGroup.Group.IdxToKey` | `src/config/config.c:333-346` | the key at a position |
| `OptionGroup.Group.KeyToIdx` | `src/config/config.c:349-380` | the position of a key, or nothing exactly when the group does not have it |
| `OptionGroup.Group.RoundTrips` | `src/config/config.c:333-380` | the two translations are mutual inverses |
| `OptionGroup.Group.Remove` | `src/config/parse.c:2838-2862` | one position leaves the map and every option's values, and all others keep their order |
| `OptionGroup.Group.Compact` | `src/config/parse.c:2824-2870` | exactly the kept positions survive in order, or the first when none is kept, in the map and in every option's values alike |
| `OptionGroup.SurvivorsExact` | `src/config/parse.c:2818-2823` | which positions those are |
| `OptionGroup.KeysKeptIff` | `src/config/parse.c:2866-2869` | keys survive if and only if two positions are left, the first one was kept, or nothing was kept and the first key was 1 |
| `OptionGroup.SecondKeyRenamed` | `src/config/parse.c:2866-2869` | of keys 1 and 2 with a value only under key 2, the value is left under key 1 |
| `OptionGroup.KeptMapAscends` | `src/config/parse.c:2824-2864` | the map of the survivors is still ascending |
| `StackTrace.Stack.Push` | `src/common/stackTrace.c:93-132` | a frame starts behind the text below it, inherits a higher log level, and no outer text changes |
| `StackTrace.Stack.ParamBuffer` | `src/common/stackTrace.c:166-203` | writes the heading behind the top frame's text, or sends the value to the reserve exactly when it does not fit |
| `StackTrace.HeadingText` | `src/common/stackTrace.c:174-202` | what the heading is, and that it fits as long as two values have room behind it |
| `StackTrace.LevelsInOrder` | `src/common/stackTrace.c:93-132` | the log levels in order |
| `StackTrace.Stack.ParamAdd` | `src/common/stackTrace.c:206-215` | counts the value unless the frame overflowed |
| `StackTrace.Stack.AddParam` | `src/common/debug.h:127` | a parameter extends the top frame's text by heading and value; no byte of an outer frame changes, and on overflow none below the reserve |
| `StackTrace.FramesDisjoint` | `src/common/stackTrace.c:108-119` | texts of different live frames share no byte |
| `StackTrace.FrameInside` | `src/common/stackTrace.c:174-185` | every frame ends inside the buffer, also a chain of frames without text |
| `StackTrace.Stack.Param` | `src/common/stackTrace.c:135-157` | what is shown for a frame in each of its states |
| `StackTrace.Stack.Pop` | `src/common/stackTrace.c:247-251` | removes the top frame only |
| `StackTrace.Stack.Clean` | `src/common/stackTrace.c:428-435` | pops down to the last frame pushed below the try depth and changes no text |
| `StackTrace.LeftExactIff` | `src/common/stackTrace.c:428-435` | these are exactly the frames below the try depth if and only if no deeper frame lies under one of them |
| `Wait.Timer.constructor` | `src/common/wait.c:28-61` | the initial state of a timer: a tenth of the wait time, at most a tenth of a second, and two retries |
| `Wait.Timer.Remains` | `src/common/wait.c:64-113` | one call, in time, past the deadline with retries, and after them |
| `Wait.Timer.More` | `src/common/wait.c:116-135` | returns true and sleeps exactly when time or retries remain |
| `Wait.SleepSchedule` | `src/common/wait.c:87-96` | the k-th sleep before the deadline is the base times the Fibonacci number k + 1, or what remains |
| `Wait.SleepsFit` | `src/common/wait.c:81-97` | the sleeps before the deadline add up to at most the wait time |
| `Wait.TrueCalls` | `src/common/wait.c:98-109` | a call returns true exactly before the deadline or among the first two, if the wait time is at least ten milliseconds |
| `Wait.LoopEnds` | `src/common/wait.c:116-135` | for every monotone clock the loop ends |
| `Calendar.EpochIsCount` | `src/common/time.c:171-193` | parts are accepted exactly when they are a real date and time, and the closed form is the counted seconds |
| `Calendar.YearsClosedForm` | `src/common/time.c:191-192` | the year terms are the summed lengths of the years since 1970 |
| `Calendar.MonthTable` | `src/common/time.c:65-69` | both month tables agree with the lengths of the months |
| `Calendar.EpochIncreases` | `src/common/time.c:171-193` | a later date or time has a larger epoch |
| `Calendar.ZoneShifts` | `src/common/time.c:188-192` | a zone ahead of universal time is earlier by its offset |
| `Calendar.FitsIff` | `src/common/time.c:188-192` | every summand and running total fits a 32-bit int if and only if the result does |
| `Calendar.FitsThrough2037` | `src/common/time.c:188-192` | nothing overflows through 2037 |
| `Calendar.FirstOverflow` | `src/common/time.c:188-192` | the last second that fits and the first that does not |
| `Calendar.OffsetRange` | `src/common/time.c:94-136` | accepted offsets lie in the range of real time zones and are quarter hours |
| `Calendar.OffsetIs` | `src/common/time.c:94-136` | which hours and minutes are accepted, and the offset they give |
| `Calendar.OffsetReached` | `src/common/time.c:115-136` | every such offset can be given if and only if it is not less than an hour behind universal time |
| `Encode.EncodeBase64` | `src/common/encode.c:28-84` | writes exactly the specified text and a terminator and nothing behind it |
| `Encode.Base64SizeExact` | `src/common/encode.c:87-96` | the size function is the length of the text |
| `Encode.QuadIsNumber` | `src/common/encode.c:45-77` | three bytes and their four characters are the same 24-bit number |
| `Encode.Alphabets` | `src/common/encode.c:26` | the two alphabets are those of sections 4 and 5 of RFC 4648 |
| `Encode.ValueOfChar` | `src/common/encode.c:98-117` | a character decodes to a number if and only if it is that number's character |
| `Encode.ValidateBase64` | `src/common/encode.c:119-155` | accepts exactly the padded strings of section 4 of RFC 4648 |
| `Encode.PaddedByPosition` | `src/common/encode.c:132-152` | the grammar of groups and the rule for each position are the same |
| `Encode.DecodeBase64` | `src/common/encode.c:158-196` | writes exactly the specified bytes, or nothing for a refused string |
| `Encode.DecodeSizeBase64` | `src/common/encode.c:199-224` | the size function is the number of decoded bytes, for text that is not empty |
| `Encode.UnBase64SizeExact` | `src/common/encode.c:209-221` | length and padding determine the number of bytes |
| `Encode.EncodeDecode` | `src/common/encode.c:28-196` | decoding an encoding gives every byte sequence back |
| `Encode.DecodeEncodeIff` | `src/common/encode.c:158-196` | encoding a decoded string gives it back if and only if its unused trailing bits are zero |
| `Encode.EncodeUrl` | `src/common/encode.c:231-282` | writes exactly the specified text and a terminator |
| `Encode.UrlSizeExact` | `src/common/encode.c:285-294` | the size function is the length of the text |
| `Encode.UrlIsTranslated` | `src/common/encode.c:229-282` | the URL form is the standard form with two characters exchanged and no padding |
| `Encode.EncodeHex` | `src/common/encode.c:309-332` | writes exactly two lower-case digits per byte and a terminator |
| `Encode.ValidateHex` | `src/common/encode.c:368-389` | accepts exactly the pairs of hex digits of either case |
| `Encode.HexDigits` | `src/common/encode.c:309-366` | the digits written, and the digits of either case that are read |
| `Encode.HexIsNumber` | `src/common/encode.c:309-332` | the two digits of a byte are its value, the higher one first |
| `Encode.DecodeHex` | `src/common/encode.c:392-413` | writes exactly the specified bytes, or nothing for a refused string |
| `Encode.HexRoundTrip` | `src/common/encode.c:309-413` | decoding undoes encoding |
| `Encode.HexBackIff` | `src/common/encode.c:309-413` | encoding undoes decoding if and only if the text has no upper-case digit |

## Left out

- Failure of malloc: every address a block may get is a parameter, and allocation always succeeds.
- Callbacks that change memory contexts, and the second run of the error handler after a callback has thrown while it unwinds, which reads a freed context.
- MemStack.CleanAfterError: covers blocks in which no discard and no inner unwinding is cut off by a callback; `MemStack.DiscardStops` and `MemStack.StoppedFrees` say what those leave.
- The debug check that a context being freed is not the current one is not modelled as an error; `MemStack.FreeTopFacts` shows that the stack's own frees never meet it. Auditing and context names are left out as well.
- Memory contexts are records in a map by address; the layout of a context and its optional parts inside one block is not modelled, only its size, for a 64-bit build with assertions. What a context whose extra bytes were recorded as none does to them is not modelled.
- The JSON reader is modelled as functions of the text and a position instead of a cursor moved in place, and texts hold no NUL character.
- The non-strict INI mode, sections and values kept for later lookup, and reading in blocks through an I/O layer.
- What the loader of an info file does with the version of another format beyond reporting it, encryption of the file, and retries over two copies.
- lockRead with removal, a missing lock directory, permissions, and file descriptors inherited by child processes. Exec ids and process ids are opaque, and progress fields are not part of the written text.
- `Locks.Others` stands for any steps of other processes; a single process making two of its own calls at once is not modelled.
- The lookup of option names and their deprecated forms, the tables of rules, beta options, words on the command line (command and parameters), warnings, and loading the text of the configuration files.
- The error for an option given on the command line to a command that does not take it (`src/config/parse.c:2270-2282`).
- OptionMerge.Parser.CommandLine: does not choose the command and its role from the words between the options, nor refuse parameters of a command that takes none (`src/config/parse.c:1906-1981`).
- OptionMerge.Parser.Parse: takes the command, whether it loads options at all, and the parsed configuration text as parameters.
- Info.SavedFileLoads: requires that no callback entry is named like a format, version, passphrase or checksum entry of the file, because the loader would take it for that; `Info.SavedFileOutcome` covers those files.
- Validation of option values against rules, dependencies and defaults (`src/config/parse.c:2362-2816`): which positions hold non-default values is a parameter of the compaction.
- Sizes beyond the index types of the encoders, and characters with the eighth bit set, which the C code looks up with a signed index; the model counts them as invalid.
- Encode.DecodeSizeBase64: requires text that is not empty, because the C code looks at the last character without asking.
- A clock that runs backwards and sleeps cut short by signals: the runs of the timer assume neither.
- Formatters that push frames of their own while a parameter is being written, and source file names and line numbers of frames.
- Log output, error message texts, process, database and storage code, and regular expressions.
