# A verified model of USSL

USSL is a state-synchronisation server: clients speak a line protocol (USSP) to
read and change JSON and text documents that carry versions, a time to live and
presence. This project models the parts of it that have logic of their own, in
Dafny, and proves what they guarantee over every input and every run.

`dafny verify dfyconfig.toml` checks all of it.

## What is modelled

| part | modules |
|---|---|
| JSON path engine: parser, reads, in-place writes | `Values`, `PathLaws`, `PathParser`, `PathEngine`, `ValueHeap` |
| Wire format: tokens, command lines, framing, replies, Base64 | `Tokens`, `Commands`, `CommandLines`, `Framing`, `Responses`, `ResponseCodec`, `Base64` |
| Token bucket, sequential and shared by threads | `RateLimit`, `BucketThreads` |
| Documents, the manager and the connection handler | `Documents`, `DocumentRuns`, `Strategies`, `Managers`, `DocumentManagers`, `Handlers`, `CommandEffects`, `ConnectionHandlers` |
| In-memory storage | `MemoryStorage` |
| JavaScript client, and client against server | `Client`, `EndToEnd` |
| Machine integers, texts, decimals | `Basics`, `Strings`, `Decimal` |

What the program changes in place is a class here (`PathParser`, `Slot`,
`Tokenizer`, `Parser`, `Buffer`, `RateLimiter`, `Document`, `DocumentManager`,
`ConnectionHandler`, `Storage`, `USSLClient`); each method is proved to compute
a function of the old state, and what the program promises is proved about
those functions, over single calls and over runs. The table names the methods
that carry loops, sharing or several objects; others, such as `SetTtl` or the
handler of a single command, only assign what their function says.

The path engine's write is given twice. `Values.Put` is recursive and has the
laws. `ValueHeap.SetPath` is the loop of the program: a reference walks down
through mutable slots, replacing and padding containers on its way. A tree's
layout says which slot holds what and that no slot is shared; the walk keeps
the part above the reference as a trail, and when it ends trail and current
tree are put together again.

Rust's 64-bit integers wrap as in a release build: `Wrap` for `i64`, remainders
modulo 2^64 for `u64`. A call that never returns is an outcome of its own
(`Hangs`, `Stuck`, `Hung`, `NoReply`), so that every text is a legal input.

## Where the code and its promises differ

Each of these is a theorem: the exact condition under which the code keeps the
promise, and inputs for which it does not.

- A path text such as "." has no segments: a write there is accepted and lost,
  and so are an increment, whose reply is then not read back, and a push to a
  document that is a list (`PathEngine.WrittenIsReadBackIff`,
  `PathEngine.DotNamesNoPlace`, `DocumentRuns.IncrementSticksIff`,
  `DocumentRuns.PushSticksIff`).
- An unclosed "[" makes the path iterator call itself forever: writes there
  never return, reads only when a segment before it is missing
  (`PathParser.StuckIsEndless`, `PathEngine.ReadIs`, `PathEngine.OpenBracketHangs`;
  exactly which commands hang is `Handlers.HungIff`).
- Deleting a path leaves a `Null`, so a list deleted cannot be pushed to again;
  only where the text names no place is a push after the deletion accepted, and
  lost (`DocumentRuns.PushAfterDeleteIff`).
- Counters and sets are read whole, whatever path a GET names; since INC creates
  counters, a GET of the path just incremented does not return the number. On a
  text document PUSH, INC and DEL of a path are accepted and counted as changes,
  but no read shows them. Exactly when a GET shows what was written is
  `Handlers.SetThenGetIff`, `Handlers.IncThenGetIff`, `Handlers.PushThenGetIff`
  and `Handlers.DelThenGetIff`; see also `DocumentRuns.TextShowsOnlySets`.
- EXPIRE counts from the document's creation, so a document older than the limit
  is expired by the very command that sets it
  (`Managers.ExpireCountsFromCreation`).
- The TTL reply and garbage collection agree exactly while the expiry is less
  than 2^63 ms ahead (`Managers.TtlReplyIs`, `Managers.FarLimitLooksExpired`).
- A backup holds the text but no values, and a time left of exactly 0 comes
  back as no limit at all, although the change log says that time to live is
  preserved (`Managers.WholeReadSurvivesIff`, `Managers.LimitSurvivesIff`).
- The rate bound is one for a limiter used by one thread at a time, which is
  how connections use it. Between a refill's load and store another thread's
  take is brought back; any two threads can so exceed the bound, unless the
  limiter never refills or one millisecond refills it whole
  (`BucketThreads.RateIsKeptIff`).
- `process` stops at the first line that does not parse and leaves the lines
  after it in the buffer until more bytes arrive: exactly when some line before
  the last one is bad, or hangs (`Handlers.StopsAtFirstBad`, `Handlers.DrainsAllIff`,
  `Handlers.BadLineHidesTheNext`).
- The JavaScript client matches answers by line: a bulk reply, such as that to
  GET, counts as two (`EndToEnd.ValueRepliesAreTwoAnswers`; exactly which replies
  count as one is `EndToEnd.OneAnswerIff`). Its response
  buffer survives a disconnect and is then the prefix of the first line of the
  next connection (`Client.StaleBufferIff`, `Client.CloseKeepsTheBuffer`). A
  delta whose payload `atob` rejects throws out of the loop, and the lines
  after it are lost (`Client.NothingAfterAThrow`, `Client.BadDeltaHidesTheAnswer`).

## Model

| member | source | states |
|---|---|---|
| `Values.Pad` | crates/ussl-core/src/crdt.rs:170-172 | Padding a list gives at least the length asked for, keeps the old items and fills up with `Null`. |
| `PathLaws.GetPut` | crates/ussl-core/src/crdt.rs:117-185 | What is written at a list of segments is what a read there finds, from every starting value. |
| `PathLaws.PutPut` | crates/ussl-core/src/crdt.rs:137-185 | Of two writes at the same segments only the second counts. |
| `PathLaws.PutGet` | crates/ussl-core/src/crdt.rs:117-185 | Writing what is already found there changes nothing. |
| `PathLaws.Frame` | crates/ussl-core/src/crdt.rs:137-185 | Exact frame: reading segments that first differ from the written ones at the same kind gives what was there before, except for the slots that padding creates, which read `Null` and resolved to nothing before. |
| `PathLaws.DivergentPathsKeepTheirValues` | crates/ussl-core/src/crdt.rs:117-185 | Every diverging path that resolved keeps its value; one that newly resolves is `Null`; the integer read there (0 if none) stays. |
| `PathLaws.DivergentWritesCommute` | crates/ussl-core/src/crdt.rs:137-185 | Two writes whose segments first differ at the same kind commute, also when intermediates are replaced and lists padded. |
| `PathLaws.ClashingWritesNeverCommute` | crates/ussl-core/src/crdt.rs:150-180 | Where a key meets an index the two orders differ, for every starting value. |
| `PathLaws.NestedWritesCommute` | crates/ussl-core/src/crdt.rs:137-185 | A write above another commutes with it exactly when the value written above already holds the other value there. |
| `PathLaws.AnyTwoPathsCompare` | crates/ussl-core/src/crdt.rs:137-185 | Any two segment lists diverge, clash, or one is a prefix of the other: the three cases above are all there are. |
| `PathLaws.WritesCommuteIff` | crates/ussl-core/src/crdt.rs:137-185 | Any two writes commute exactly when they are independent, for every pair of segment lists and values. |
| `PathLaws.AnyOrderGivesTheSame` | crates/ussl-core/src/crdt.rs:137-185 | Any two orders of the same mutually diverging writes give the same value. |
| `PathParser.Activate` | crates/ussl-core/src/crdt.rs:261-299 | One activation of `next` never runs past the end, strictly advances when it yields a segment, and never goes back when it calls itself. |
| `PathParser.Next` | crates/ussl-core/src/crdt.rs:261-299 | A whole call keeps `pos` inside the path and strictly advances when it delivers a segment. |
| `PathParser.EveryTurnAdvances` | crates/ussl-core/src/crdt.rs:261-299 | When every bracket is closed, each activation that yields or calls itself strictly advances: the termination measure. |
| `PathParser.UnclosedStaysAhead` | crates/ussl-core/src/crdt.rs:275-298 | An activation passes no unclosed bracket; only standing at one does it call itself without moving. |
| `PathParser.StuckIsEndless` | crates/ussl-core/src/crdt.rs:295-298 | A call is reported stuck exactly when its chain of self-calls is infinite. |
| `PathParser.Collect` | crates/ussl-core/src/crdt.rs:143 | Collecting yields at most as many segments as the path has characters left. |
| `PathParser.CollectReturnsIffClosed` | crates/ussl-core/src/crdt.rs:275-298 | Collecting returns exactly when every `[` has a later `]`. |
| `PathParser.ParseOfPrint` | crates/ussl-core/src/crdt.rs:245-300 | Printing any list of writable segments and parsing it gives back that list. |
| `PathParser.CollectedAreWritable` | crates/ussl-core/src/crdt.rs:261-299 | Whatever is parsed consists of non-empty keys without `.` or `[` and indices in `usize` range. |
| `PathParser.WritableIffParsed` | crates/ussl-core/src/crdt.rs:245-300 | The lists that can be printed are exactly the lists that some path parses to. |
| `PathParser.EmptyKeysAreSkipped` | crates/ussl-core/src/crdt.rs:261-299 | An empty key between dots yields nothing, nor does a dot at the end. |
| `PathParser.BadIndexIsSkipped` | crates/ussl-core/src/crdt.rs:275-298 | A closed bracket whose text is no index yields nothing: collecting goes on behind it. |
| `PathParser.PathParser.Advance` | crates/ussl-core/src/crdt.rs:261-299 | `next`, moving `pos` step by step, delivers the item and reaches the position that the activation chain specifies. |
| `PathEngine.LazilyIs` | crates/ussl-core/src/crdt.rs:117-134 | Parsing while walking equals parsing first: a missing child answers `None` even when a later bracket would have hung the iterator. |
| `PathEngine.ReadIs` | crates/ussl-core/src/crdt.rs:117-134 | `get_path` on every text: the value at its segments; it hangs exactly on an unclosed text whose segments before the bracket all resolve. |
| `PathEngine.WrittenIsReadBackIff` | crates/ussl-core/src/crdt.rs:117-185 | A written value reads back exactly when the text names a place, or is closed without segments (such as ".") and the whole value already was the one written. |
| `PathEngine.DotNamesNoPlace` | crates/ussl-core/src/crdt.rs:117-185 | A concrete case: "." is closed and has no segments, and every write there leaves every value as it was. |
| `PathEngine.OpenBracketHangs` | crates/ussl-core/src/crdt.rs:275-298 | A concrete case: "a[" is not closed; no write there returns, and a read hangs exactly where there is a field "a". |
| `PathEngine.LastWriteWins` | crates/ussl-core/src/crdt.rs:137-185 | Of two writes at the same path text only the second counts. |
| `PathEngine.WritingWhatIsThereChangesNothing` | crates/ussl-core/src/crdt.rs:117-185 | Writing at a path text the value found there changes nothing. |
| `PathEngine.WritesCommuteIff` | crates/ussl-core/src/crdt.rs:137-185 | Two writes at texts that name places commute exactly when their segments are independent. |
| `PathEngine.GetPath` | crates/ussl-core/src/crdt.rs:117-134 | The read-only walk with its incremental parser computes the specified lookup. |
| `PathEngine.CollectSegments` | crates/ussl-core/src/crdt.rs:143 | Driving the iterator to exhaustion gives the parsed segments, or never returns when a bracket is unclosed. |
| `ValueHeap.SetPath` | crates/ussl-core/src/crdt.rs:137-185 | The walk with its moving `&mut current`, on mutable slots without sharing, leaves the root holding exactly what the recursive write gives, for every tree and path text; the result is built from the old slots, those of the moved value and new ones. |
| `ValueHeap.SetSegments` | crates/ussl-core/src/crdt.rs:143-184 | The loop over the segments turns the tree into the recursive write of the value at them; no segments, no change. |
| `ValueHeap.StepInto` | crates/ussl-core/src/crdt.rs:156-177 | A segment before the last: the reference moves to a child of the opened container while the rest of the tree stays intact around it. |
| `ValueHeap.Open` | crates/ussl-core/src/crdt.rs:159-172 | The current slot becomes a container of the segment's kind with room for it, keeping whatever fitted. |
| `ValueHeap.MakeContainer` | crates/ussl-core/src/crdt.rs:152-168 | A slot of the wrong kind is emptied into a container of the right kind; one of the right kind is kept. |
| `ValueHeap.EntryOrNull` | crates/ussl-core/src/crdt.rs:156-160 | `entry(key).or_insert(Null)`: keeps a present entry, adds `Null` for a missing one. |
| `ValueHeap.PadList` | crates/ussl-core/src/crdt.rs:170-172 | The pushing loop pads the list with `Null` up to the index and keeps the items before it. |
| `ValueHeap.Insert` | crates/ussl-core/src/crdt.rs:150-177 | The last segment: the moved tree replaces whatever hung under it. |
| `ValueHeap.EndOfBorrow` | crates/ussl-core/src/crdt.rs:146-181 | When the walk ends, the containers passed on the way and the current tree make up one well-formed tree holding the plugged value. |
| `Strategies.StrategyNameParses` | crates/ussl-core/src/crdt.rs:28-53 | Any spelling, in any case, of a displayed strategy name parses to that strategy. |
| `Documents.RemainingIsNegativeIffExpired` | crates/ussl-core/src/document.rs:107-130 | Remaining time is negative exactly for expired documents, exactly while the (wrapping) expiry is less than 2^63 ms ahead; then it is the plain difference. |
| `Documents.Document.constructor` | crates/ussl-core/src/document.rs:148-167 | A new document has version 1, empty text and object, no updates and no compactions. |
| `Documents.Document.SetData` | crates/ussl-core/src/document.rs:237-271 | Writes the value at the path and counts one change; nothing changes when the path never returns. |
| `Documents.Document.SetValue` | crates/ussl-core/src/document.rs:237-271 | A set on a text document replaces the text, adds to its history and counts an update; a value that is not a string is refused; other strategies write at the path. |
| `Documents.Document.DeleteValue` | crates/ussl-core/src/document.rs:274-289 | Deleting a path writes `Null` there; deleting without a path empties the object. |
| `Documents.Document.PushValue` | crates/ussl-core/src/document.rs:292-313 | Read, create an empty list when missing, read again, append: tied to the specification whose law is `DocumentRuns.PushAt`. |
| `Documents.Document.IncrementBy` | crates/ussl-core/src/document.rs:316-328 | Adds to the integer read at the path (0 otherwise) with 64-bit wrap-around, writes it and returns it. |
| `Documents.Document.CompactHistory` | crates/ussl-core/src/document.rs:410-461 | Content stays, a text's history shrinks to one snapshot, the update count starts again and the bytes saved are returned (never negative). |
| `Documents.Document.MaybeAutoCompact` | crates/ussl-transport/src/handler.rs:553-570 | Compacts exactly when the thresholds of `should_compact` are met. |
| `Documents.Document.ApplyEncoded` | crates/ussl-core/src/document.rs:353-367 | Empty state changes nothing, undecodable state is refused, a state is adopted and counted as a change. |
| `DocumentRuns.CounterIsTheSum` | crates/ussl-core/src/document.rs:316-328 | In every run of increments at a place among writes elsewhere, the value there is the initial integer plus the sum of the deltas (wrapped), and each reply is the sum so far. |
| `DocumentRuns.CounterInRange` | crates/ussl-core/src/document.rs:316-328 | While the sum stays in i64 range it is the plain sum. |
| `DocumentRuns.IncrementSticksIff` | crates/ussl-core/src/document.rs:316-328 | The reply of an increment is what a read of the value returns afterwards exactly when the text names a place, or the document is an integer and nothing is added. |
| `DocumentRuns.PushAt` | crates/ussl-core/src/document.rs:292-313 | At a named place: nothing becomes a list of one, a list gets the value appended, anything else is refused and unchanged. |
| `DocumentRuns.PushesExtendTheList` | crates/ussl-core/src/document.rs:292-313 | In every run of pushes at a place among writes elsewhere, the accepted values extend the old list in order. |
| `DocumentRuns.PushAfterDeleteIff` | crates/ussl-core/src/document.rs:274-313 | On every text: after a path was deleted, a push there is accepted exactly when the text names no place and the whole document is a list. |
| `DocumentRuns.PushSticksIff` | crates/ussl-core/src/document.rs:292-313 | A push that was accepted is read back behind the old values exactly when the text names a place; elsewhere the value is lost and the version counts a change. |
| `DocumentRuns.SparingKeeps` | crates/ussl-core/src/document.rs:237-328 | A command that writes elsewhere leaves a place as it was, or turns nothing into padding `Null`. |
| `DocumentRuns.CompactionKeepsReads` | crates/ussl-core/src/document.rs:410-461 | Automatic compaction changes no read, for any strategy and path. |
| `DocumentRuns.VersionCountsMutations` | crates/ussl-core/src/document.rs:467-474 | In every run the version counts the accepted changes and the update time is the last one's; compaction and expiry add none; id, strategy and creation time never change. |
| `DocumentRuns.CompactionIsInvisible` | crates/ussl-core/src/document.rs:385-461 | Two runs of the same commands, one without its COMPACT commands and with automatic compaction at other moments, give the same other replies and the same readable document. |
| `DocumentRuns.TextRun` | crates/ussl-core/src/document.rs:385-461 | In every run on a text document the content is the last text set, the update count stays below 1000 between commands, and sets <= 1000 x compactions + update count. |
| `DocumentRuns.HistoryIsBounded` | crates/ussl-core/src/document.rs:410-461 | A text document never remembers more than 1000 edits, nor more than one beyond its update count. |
| `DocumentRuns.TextSetIs` | crates/ussl-core/src/document.rs:237-271 | The whole outcome of a SET on a text document: the edit added, or a snapshot instead exactly when compaction is due (1000 updates, or more than 100 and 1 MiB); anything but a string is refused. |
| `DocumentRuns.WriteCompactsIff` | crates/ussl-transport/src/handler.rs:553-570 | After any other accepted write a document is compacted exactly when that is due; its text stays. |
| `DocumentRuns.CompactIs` | crates/ussl-core/src/document.rs:410-461 | COMPACT leaves a snapshot of a text, starts counting anew and replies with the bytes saved, never less than none. |
| `DocumentRuns.DeleteAllIs` | crates/ussl-core/src/document.rs:274-289 | Deleting without a path empties the object and counts one change. |
| `DocumentRuns.DeleteIs` | crates/ussl-transport/src/handler.rs:273-475 | DEL of a path writes `Null` there and counts one change; neither DEL nor EXPIRE compacts. |
| `DocumentRuns.TextDocumentSinceCreation` | crates/ussl-transport/src/handler.rs:237-271 | The same from creation: GET gives the last text set, and the version is 1 plus the accepted changes. |
| `DocumentRuns.ReadYourWriteIff` | crates/ussl-core/src/document.rs:206-271 | For each strategy, exactly when a GET after an accepted SET of the same path returns the value set; counters and sets are read whole. |
| `DocumentRuns.IncrementThenFetchIff` | crates/ussl-core/src/document.rs:206-328 | For each strategy, exactly when a GET after an accepted INC of the same path returns the number replied: never on text documents, and on counters and sets only for the whole document. |
| `DocumentRuns.PushThenFetchIff` | crates/ussl-core/src/document.rs:206-313 | For each strategy, exactly when a GET after an accepted PUSH of the same path returns the old values and the new one. |
| `DocumentRuns.DeleteThenFetchIff` | crates/ussl-core/src/document.rs:206-289 | For each strategy, exactly when a GET after an accepted DEL of the same path returns `Null`. |
| `DocumentRuns.TextShowsOnlySets` | crates/ussl-core/src/document.rs:206-328 | On a text document no command but a SET of a string changes what any GET returns. |
| `Managers.TtlReplyIs` | crates/ussl-transport/src/handler.rs:477-503 | The reply is -1 exactly for documents without a time to live; it is -2 exactly for those `gc` would remove at that instant, exactly while the expiry is less than 2^63 ms ahead; otherwise it is the time left. |
| `Managers.FarLimitLooksExpired` | crates/ussl-transport/src/handler.rs:477-503 | A concrete case: with a limit of 2^63 ms TTL replies -2 at creation, and `gc` keeps the document. |
| `Managers.GcRemovesExactlyTheExpired` | crates/ussl-core/src/manager.rs:174-191 | Collection removes exactly the expired documents with their presence, returns their number, keeps all else, and leaves nothing for a second collection. |
| `Managers.ExpireCountsFromCreation` | crates/ussl-transport/src/handler.rs:450-475 | A limit set on an existing document counts from its creation: TTL at once replies with it exactly when the document is created at that instant (and it fits an i64); `gc` removes the document at once exactly when the (wrapping) sum of creation and limit is past, which without wrapping means it is older than the limit. |
| `Managers.GoodEntries` | crates/ussl-core/src/manager.rs:257-284 | The number of backup entries before the first bad one. |
| `Managers.LastEntry` | crates/ussl-core/src/manager.rs:257-284 | The last entry for an id among the first ones, if there is any. |
| `Managers.RestoreIsAFold` | crates/ussl-core/src/manager.rs:257-284 | Restore applies exactly the entries before the first bad one, the last duplicate wins, all other documents and presence stay; it returns the count exactly when none is bad, otherwise that entry's error. |
| `Managers.RestoreOneOf` | crates/ussl-core/src/manager.rs:262-281 | A restored entry has the backed-up strategy and text, an empty value, version 2, and the time left as its time to live if positive. |
| `Managers.RemainingCarriesOver` | crates/ussl-core/src/manager.rs:264-270 | A positive time left is the same time left at the instant of the restore, also when the sum wraps. |
| `Managers.IsBackupIff` | crates/ussl-core/src/manager.rs:227-253 | A list of entries is a backup exactly when it lists the saved entries of all live documents, each id once, in any order. |
| `Managers.BackupThenRestore` | crates/ussl-core/src/manager.rs:227-284 | Backup at one instant, restore at another, into any manager: every live document comes back with strategy, text and positive time left; others stay. |
| `Managers.WholeReadSurvivesIff` | crates/ussl-core/src/manager.rs:239-244 | A document reads the same after backup and restore exactly when it is a text document or its value was the empty object. |
| `Managers.LimitSurvivesIff` | crates/ussl-core/src/manager.rs:266-268 | The time left survives exactly when there was no limit or it was positive. |
| `Managers.PresenceIsTheLatest` | crates/ussl-core/src/manager.rs:125-157 | In every run from empty presence, each client has at most one entry on each document: the one it set last since it left or the document was collected. |
| `DocumentManagers.DocumentManager.CreateDocument` | crates/ussl-core/src/manager.rs:51-70 | Refuses an existing id, otherwise adds a fresh document. |
| `DocumentManagers.DocumentManager.GetOrCreateDocument` | crates/ussl-core/src/manager.rs:81-93 | Returns the document at the id, created if missing, and leaves all others. |
| `DocumentManagers.DocumentManager.DeleteDocument` | crates/ussl-core/src/manager.rs:96-101 | Removes exactly that document, or reports that it is missing. |
| `DocumentManagers.DocumentManager.ExpireDocument` | crates/ussl-core/src/manager.rs:160-164 | Changes only that document's time to live. |
| `DocumentManagers.DocumentManager.SetClientPresence` | crates/ussl-core/src/manager.rs:125-142 | Replaces the client's entry on the document and keeps the others in order. |
| `DocumentManagers.DocumentManager.RemoveClientPresence` | crates/ussl-core/src/manager.rs:153-157 | The loop over all documents removes the client's entries everywhere and nothing else. |
| `DocumentManagers.DocumentManager.ListExpired` | crates/ussl-core/src/manager.rs:175-180 | Lists the expired ids, each once. |
| `DocumentManagers.DocumentManager.ListMatching` | crates/ussl-core/src/manager.rs:104-112 | Lists the ids that match the pattern, each once, whatever the order of the map. |
| `DocumentManagers.DocumentManager.CollectGarbage` | crates/ussl-core/src/manager.rs:174-191 | The loop over the listed ids leaves exactly the collected manager and returns the count. |
| `DocumentManagers.DocumentManager.TakeBackup` | crates/ussl-core/src/manager.rs:227-253 | Lists every live document once, whatever the order of the map. |
| `DocumentManagers.DocumentManager.RestoreEntry` | crates/ussl-core/src/manager.rs:262-281 | Builds the document of one entry, or the error for a bad id, strategy or state. |
| `DocumentManagers.DocumentManager.RestoreBackup` | crates/ussl-core/src/manager.rs:257-284 | The loop with early exit computes the fold of `Managers.RestoreIsAFold`. |
| `Base64.Base64Encode` | crates/ussl-protocol/src/response.rs:168-198 | The loop over three-byte groups produces the encoding of section 4 of RFC 4648. |
| `Base64.TableInverts` | crates/ussl-protocol/src/response.rs:169-170 | Looking up a character of the alphabet and reading it back gives the same six bits. |
| `Base64.BytesOfSextets` | crates/ussl-protocol/src/response.rs:174-194 | The shifts and masks lose no bit of three bytes, and the padding bits are zero. |
| `Base64.SextetsOfBytes` | crates/ussl-protocol/src/response.rs:174-194 | Conversely four sextets are rebuilt from the bytes they carry. |
| `Base64.DecodeOfEncode` | crates/ussl-protocol/src/response.rs:168-198 | A strict decoder (section 4 of RFC 4648) inverts the encoding on every byte string. |
| `Base64.EncodeOfDecode` | crates/ussl-protocol/src/response.rs:168-198 | Whatever the strict decoder accepts is the encoding of what it returns. |
| `Base64.DecodesIffEncoded` | crates/ussl-protocol/src/response.rs:168-198 | So a text decodes to some bytes exactly when it is their encoding. |
| `Base64.EncodeShape` | crates/ussl-protocol/src/response.rs:168-198 | Length 4*ceil(n/3); padding only at the end, its amount decided by n mod 3; every other character from the alphabet. |
| `Base64.AtobOfEncode` | sdks/js/src/client.ts:278-285 | The client's forgiving `atob` also gives back every encoded byte string. |
| `Responses.EncodeInto` | crates/ussl-protocol/src/response.rs:103-164 | Appends to the buffer exactly the encoding of the reply, arrays nested to any depth. |
| `Responses.EncodeItems` | crates/ussl-protocol/src/response.rs:157-162 | The loop over an array's items appends their encodings in order. |
| `Responses.EncodeBulk` | crates/ussl-protocol/src/response.rs:130-134 | Appends the length line, the data and a line end. |
| `Responses.EncodeDelta` | crates/ussl-protocol/src/response.rs:135-143 | Appends `#`, the version, a space and the Base64 of the delta on one line. |
| `ResponseCodec.Decode` | crates/ussl-protocol/src/lib.rs:10-17 | The grammar's decoder consumes at least one character when it succeeds. |
| `ResponseCodec.HeaderParses` | crates/ussl-protocol/src/lib.rs:10-17 | The first line of every reply announces its kind and its length or contents. |
| `ResponseCodec.DecodeOfEncode` | crates/ussl-protocol/src/response.rs:103-164 | Decoding an encoding followed by any text gives the reply (a value as the bulk of its JSON) and exactly that text. |
| `ResponseCodec.EncodeOfDecode` | crates/ussl-protocol/src/response.rs:103-164 | Whatever decodes is the encoding of the result followed by the rest. |
| `ResponseCodec.SelfDelimitingIff` | crates/ussl-protocol/src/response.rs:103-164 | A reply comes back in front of every text, and in front of some text, exactly when its texts have no line feed and its error codes no space. |
| `ResponseCodec.DecodesIffEncoded` | crates/ussl-protocol/src/response.rs:103-164 | A text decodes to a reply and a rest exactly when it is that reply's encoding followed by that rest, for replies without values. |
| `ResponseCodec.EncodingIsInjective` | crates/ussl-protocol/src/response.rs:103-164 | Two encodings that start the same stream are of the same reply, up to values against bulks. |
| `Tokens.NextToken` | crates/ussl-protocol/src/parser.rs:323-350 | The position strictly increases with every token and stays in bounds; no token means the end was reached. |
| `Tokens.TokensFrom` | crates/ussl-protocol/src/parser.rs:323-350 | There are never more tokens than characters. |
| `Tokens.Tokenizer.Next` | crates/ussl-protocol/src/parser.rs:323-350 | The skipping and scanning loops find the specified token and position. |
| `Tokens.Tokenizer.Rest` | crates/ussl-protocol/src/parser.rs:352-365 | The rest of the line after its leading spaces, if any. |
| `Tokens.NextOfSpell` | crates/ussl-protocol/src/parser.rs:323-350 | A spelled text, bare or quoted, is read back whole and the position ends right behind it. |
| `Tokens.TokenizerInverts` | crates/ussl-protocol/src/parser.rs:313-366 | Any list of quote-free texts, each quoted or (when possible) bare, printed with single spaces, tokenizes back to itself. |
| `Tokens.UnclosedQuote` | crates/ussl-protocol/src/parser.rs:328-350 | A token that starts with a quote that is never closed keeps the quote and ends at the next space. |
| `CommandLines.VerbOfWord` | crates/ussl-protocol/src/parser.rs:68-92 | Every command word is recognised as its command. |
| `CommandLines.AnyCaseMeans` | crates/ussl-protocol/src/parser.rs:66-68 | In any mixture of capitals and small letters. |
| `CommandLines.OtherWordsMean` | crates/ussl-protocol/src/parser.rs:73-77 | DELETE, SUBSCRIBE, UNSUBSCRIBE, INCR and INCREMENT call the same commands. |
| `CommandLines.RenderedParses` | crates/ussl-protocol/src/parser.rs:60-304 | Every command, with any word for it in any case and its texts bare or quoted in any mixture, has a line that parses to exactly that command; a value text that is JSON denotes what it reads as, any other denotes itself. |
| `CommandLines.WriteLine` | crates/ussl-protocol/src/parser.rs:153-226 | SET and PUSH lines parse to the same id and path, and to the value that the trimmed text reads as if it is JSON, otherwise to the text itself. |
| `CommandLines.IncrementLine` | crates/ussl-protocol/src/parser.rs:228-238 | An INC line parses to the same id, path and 64-bit amount. |
| `CommandLines.CreateLine` | crates/ussl-protocol/src/parser.rs:102-128 | A CREATE line parses to the same id, strategy and optional time to live. |
| `CommandLines.PlaceLine` | crates/ussl-protocol/src/parser.rs:130-206 | GET, DEL and SUB lines with or without PATH parse to the same id and path. |
| `CommandLines.ExpireLine` | crates/ussl-protocol/src/parser.rs:278-286 | An EXPIRE line parses to the same id and milliseconds. |
| `CommandLines.PresenceLine` | crates/ussl-protocol/src/parser.rs:240-265 | A PRESENCE line with DATA parses to the same id and data. |
| `CommandLines.RestoreLine` | crates/ussl-protocol/src/parser.rs:294-304 | A RESTORE line carries its JSON text unchanged. |
| `CommandLines.OneArgLine` | crates/ussl-protocol/src/parser.rs:95-100 | AUTH, KEYS, UNSUB, COMPACT, TTL and PRESENCE lines with one argument parse to that command and argument. |
| `CommandLines.LonelyLine` | crates/ussl-protocol/src/parser.rs:68-92 | PING, QUIT, INFO, BACKUP and KEYS stand alone. |
| `CommandLines.IncrementByOne` | crates/ussl-protocol/src/parser.rs:228-238 | INC without an amount adds one. |
| `CommandLines.CreatePlain` | crates/ussl-protocol/src/parser.rs:102-128 | CREATE without options makes an LWW document without a limit. |
| `CommandLines.BarePlace` | crates/ussl-protocol/src/parser.rs:130-186 | GET and DEL take a path without the keyword, too. |
| `CommandLines.BarePresence` | crates/ussl-protocol/src/parser.rs:240-265 | PRESENCE takes its JSON without the keyword, too, when it begins with no quote and its first space stands alone; text that is no JSON is refused. |
| `CommandLines.MissingArguments` | crates/ussl-protocol/src/parser.rs:95-304 | With fewer arguments than a command needs, or SET and PUSH without a value, a line is refused as incomplete. |
| `CommandLines.UnknownOption` | crates/ussl-protocol/src/parser.rs:109-206 | SUB and CREATE refuse an option they do not know. |
| `CommandLines.MissingOptionValue` | crates/ussl-protocol/src/parser.rs:109-206 | A keyword of GET, DEL, SUB or CREATE without its value is refused as incomplete. |
| `CommandLines.BadOptionValue` | crates/ussl-protocol/src/parser.rs:109-122 | CREATE refuses a strategy without such a name and a limit that is no 64-bit number. |
| `CommandLines.BadNumber` | crates/ussl-protocol/src/parser.rs:228-286 | INC and EXPIRE refuse an amount or time that is no 64-bit number. |
| `CommandLines.BadJson` | crates/ussl-protocol/src/parser.rs:240-304 | PRESENCE and RESTORE refuse data that is no JSON. |
| `CommandLines.NoCommand` | crates/ussl-protocol/src/parser.rs:60-92 | An empty line, or a word that is no command, is refused as such. |
| `Framing.Parser.Feed` | crates/ussl-protocol/src/parser.rs:24-33 | Appends the bytes, or refuses them whole when the buffer would pass 1 MiB. |
| `Framing.Parser.Parse` | crates/ussl-protocol/src/parser.rs:36-57 | Gives up exactly the first line, without its line end, and keeps the rest; without a complete line nothing changes. |
| `Framing.LinesAppend` | crates/ussl-protocol/src/parser.rs:24-57 | Bytes that arrive later continue the unfinished line. |
| `Framing.StreamIsItsLines` | crates/ussl-protocol/src/parser.rs:36-57 | A stream is its lines and its leftover: nothing lost or invented. |
| `Framing.EveryRunIsFaithful` | crates/ussl-protocol/src/parser.rs:24-57 | In every interleaving of feeds and parses: results so far plus buffered lines are the lines accepted, and consumed bytes plus buffer are the bytes accepted. |
| `Framing.ChunkingDoesNotMatter` | crates/ussl-protocol/src/parser.rs:24-57 | Two runs that accepted the same bytes give results one a prefix of the other, equal once drained. |
| `Framing.LinesOfJoined` | crates/ussl-protocol/src/parser.rs:36-57 | Lines joined with line feeds are split into the same lines. |
| `Framing.Replay` | crates/ussl-protocol/src/parser.rs:16-57 | Driving a parser object with any calls gives the buffer and results of the trace. |
| `RateLimit.RateLimiter.constructor` | crates/ussl-transport/src/rate_limit.rs:60-72 | A new bucket is full. |
| `RateLimit.RateLimiter.Refill` | crates/ussl-transport/src/rate_limit.rs:106-122 | Adds the whole milliseconds' tokens up to the cap, and leaves the clock alone when that is nothing. |
| `RateLimit.RateLimiter.TryAcquire` | crates/ussl-transport/src/rate_limit.rs:75-97 | However often the weak exchange fails, one refill and at most one token taken; refused exactly below one token. |
| `RateLimit.RateLimiter.WouldLimit` | crates/ussl-transport/src/rate_limit.rs:100-103 | Says exactly whether an acquisition at that instant would be refused, taking nothing. |
| `RateLimit.RateLimiter.AvailableTokens` | crates/ussl-transport/src/rate_limit.rs:125-128 | Refills and returns the whole tokens left. |
| `RateLimit.RateLimiter.ResetBucket` | crates/ussl-transport/src/rate_limit.rs:136-139 | A full bucket as of now. |
| `RateLimit.AdmittedIff` | crates/ussl-transport/src/rate_limit.rs:75-122 | While nothing wraps, an acquisition is admitted exactly when tokens held plus the rate times the whole milliseconds since the last refill, at most the cap, come to a token; the whole bucket afterwards is stated. |
| `RateLimit.PeekAndReset` | crates/ussl-transport/src/rate_limit.rs:100-139 | Looking credits the same and takes nothing; a reset fills the bucket as of now. |
| `RateLimit.RunBound` | crates/ussl-transport/src/rate_limit.rs:75-122 | Over every sequential run from any state: 1000 x admitted plus tokens left <= tokens at the start, a full bucket per reset, and the rate times the whole milliseconds. |
| `RateLimit.RateBound` | crates/ussl-transport/src/rate_limit.rs:60-122 | From creation: 1000 x admitted <= 1000 x burst (once more per reset) + rate x elapsed milliseconds. |
| `RateLimit.BurstIsAdmitted` | crates/ussl-transport/src/rate_limit.rs:75-97 | Of k acquisitions at once on a full bucket exactly min(k, burst) are admitted. |
| `RateLimit.AllAdmittedIff` | crates/ussl-transport/src/rate_limit.rs:60-139 | At creation, and after a reset at any point of any run, k acquisitions at once are all admitted exactly when k is no more than the burst. |
| `RateLimit.FullSince` | crates/ussl-transport/src/rate_limit.rs:75-139 | At every point of every run in which nothing wraps there is an instant since when tokens left and tokens spent come to a full bucket and more than half of the rate. |
| `RateLimit.EveryRefusalIsEarned` | crates/ussl-transport/src/rate_limit.rs:75-122 | So whenever an acquisition is refused, admissions since such an instant came to more than the burst less one and half of the rate: the lower bound on admissions, cap included. |
| `RateLimit.PacedIsNeverRefused` | crates/ussl-transport/src/rate_limit.rs:75-122 | Requests that come no faster than the rate are all admitted. |
| `RateLimit.GainSinceSettled` | crates/ussl-transport/src/rate_limit.rs:106-122 | After an operation, a later refill credits at most the whole milliseconds since it plus one, also where products wrap. |
| `RateLimit.WindowBound` | crates/ussl-transport/src/rate_limit.rs:75-122 | For a run starting at any instant after a valid state, the same bound with one extra millisecond. |
| `RateLimit.WindowRateBound` | crates/ussl-transport/src/rate_limit.rs:60-122 | In every run since creation, every window inside it keeps to burst and rate with one extra millisecond. |
| `RateLimit.NoOverflowIff` | crates/ussl-transport/src/rate_limit.rs:106-122 | No refill of any bucket made with 32-bit limits, however full, wraps in u64, exactly for idle times up to 2^32 - 999 ms. |
| `RateLimit.TruncationLosesLessThanHalf` | crates/ussl-transport/src/rate_limit.rs:106-122 | While the cap is not hit, tokens left and spent account for more than half of the rate over the time up to the last refill, as soon as there has been one and the rate is not 0. |
| `BucketThreads.EveryRunKeepsInv` | crates/ussl-transport/src/rate_limit.rs:75-139 | Every interleaving of load, exchange, lock, load, store and reset steps of any number of threads keeps the bucket's books. |
| `BucketThreads.EveryInterleavingIsBounded` | crates/ussl-transport/src/rate_limit.rs:75-139 | In every interleaving tokens never pass the cap, and tokens taken are bounded by burst, credit, resets and the takes a refill's store undid. |
| `BucketThreads.NoTokenIsSpentTwice` | crates/ussl-transport/src/rate_limit.rs:75-97 | Between two stores of a refill or reset, 1000 x takes plus tokens is constant. |
| `BucketThreads.RefillsExclude` | crates/ussl-transport/src/rate_limit.rs:106-122 | At most one thread at a time is between its refill's load and store. |
| `BucketThreads.RateIsKeptIff` | crates/ussl-transport/src/rate_limit.rs:60-139 | Over all limits, sets of threads and runs without resets: every run keeps the sequential rate bound exactly when at most one thread uses the limiter, or it never refills, or one millisecond refills it whole. |
| `BucketThreads.OneThreadKeepsTheRate` | crates/ussl-transport/src/rate_limit.rs:75-139 | One thread, as a connection uses its limiter, keeps the rate in the step model. |
| `BucketThreads.FullRefillKeepsTheRate` | crates/ussl-transport/src/rate_limit.rs:75-139 | When a millisecond refills the bucket whole, any number of threads keep the rate: what a refill brings back is paid for by its own credit. |
| `BucketThreads.Overspend` | crates/ussl-transport/src/rate_limit.rs:75-122 | For all other limits and any two threads, a run in which one thread takes a token between the load and the store of the other's refill, and more is taken than the bound allows. |
| `BucketThreads.OverlapBreaksTheRate` | crates/ussl-transport/src/rate_limit.rs:106-122 | With a burst of one and one token a second, two threads can take more than the bound allows. |
| `Handlers.ParsedIsInRange` | crates/ussl-protocol/src/parser.rs:60-304 | Every parsed command's numbers fit their 64-bit types. |
| `Handlers.ChunkIsRefusedIff` | crates/ussl-transport/src/handler.rs:76-82 | A chunk that would take the buffer past 1 MiB is refused whole, with one reply; any other is drained. |
| `Handlers.DrainFrames` | crates/ussl-transport/src/handler.rs:76-113 | Draining takes a prefix of the buffered lines with one reply each; a complete line stays behind only after one that did not parse (or a command that hung). |
| `Handlers.StopsAtFirstBad` | crates/ussl-transport/src/handler.rs:84-109 | Of the lines taken only the last can have failed to parse, or hung: it is the first such line. |
| `Handlers.HungIff` | crates/ussl-transport/src/handler.rs:116-173 | Exactly which commands never return, read off the command, the connection and the documents before it: an admitted SET, PUSH, INC, DEL or GET with a valid id and an unclosed path that it reaches (a SET on a text document does not, a DEL needs the document, a GET a document read by path in which the segments before the bracket resolve). |
| `Handlers.HangsAtEndlessPath` | crates/ussl-transport/src/handler.rs:84-109 | Whatever hangs while draining is a command with an unclosed path. |
| `Handlers.DrainsAllIff` | crates/ussl-transport/src/handler.rs:84-109 | If no buffered command has an unclosed path, no complete line is left exactly when every buffered line before the last one parses; in general exactly when, besides, no command taken hangs. |
| `Handlers.BadLineHidesTheNext` | crates/ussl-transport/src/handler.rs:105-108 | A concrete case: an unknown command followed by PING gives one error, and PING stays in the buffer unanswered. |
| `Handlers.EveryLineIsAnsweredOnce` | crates/ussl-transport/src/handler.rs:76-113 | On every connection, however its bytes arrive: the commands taken are a prefix of the accepted lines, the rest is buffered, there is one answer to each line taken, and the other replies are to chunks refused. |
| `Handlers.NoCommandIsRateLimited` | crates/ussl-transport/src/handler.rs:116-173 | Commands themselves never answer RATE_LIMITED. |
| `Handlers.LimitedIff` | crates/ussl-transport/src/handler.rs:88-99 | One line: a command other than PING and QUIT is answered RATE_LIMITED exactly when the bucket, credited and capped, holds less than a token (while nothing wraps), and then nothing else happens; no other line is, and none without a limiter. |
| `Handlers.ExemptIsNeverLimited` | crates/ussl-transport/src/handler.rs:88-99 | However lines are drained, PING, QUIT and lines that do not parse are never answered RATE_LIMITED. |
| `Handlers.ServeCounts` | crates/ussl-transport/src/handler.rs:88-99 | What the limiter admitted is the number of commands other than PING and QUIT that were not answered RATE_LIMITED, counted from the lines taken and their answers. |
| `Handlers.ServeLimits` | crates/ussl-transport/src/handler.rs:88-99 | The limiter is always in the state its sequence of questions leads to, and admissions are counted by it. |
| `Handlers.ServeAsksInOrder` | crates/ussl-transport/src/handler.rs:88-99 | With a clock that never goes back the limiter is asked at instants that never go back, none later than the last line taken. |
| `Handlers.ConnectionKeepsTheRate` | crates/ussl-transport/src/handler.rs:88-99 | With such a clock, however its bytes arrive, on a rate-limited connection the commands taken, PING and QUIT aside, that are not answered RATE_LIMITED are no more than burst and rate allow since it was opened. |
| `Handlers.LockedTakesNothing` | crates/ussl-transport/src/handler.rs:116-132 | One line on a locked connection changes no document, and unlocks it exactly when it is the right password and not rate limited. |
| `Handlers.NothingHappensUnauthenticated` | crates/ussl-transport/src/handler.rs:76-191 | Over a whole connection, however its bytes arrive: without the right password among the lines taken it stays locked, and the documents are as other connections left them. |
| `Handlers.CommandTouchesOneDocument` | crates/ussl-transport/src/handler.rs:116-173 | A command other than RESTORE leaves every document but its own as it was. |
| `Handlers.SetThenGetIff` | crates/ussl-transport/src/handler.rs:215-271 | For each strategy, exactly when the GET after an accepted SET replies with the value set, whether the SET created the document and whatever compaction followed it. |
| `Handlers.IncThenGetIff` | crates/ussl-transport/src/handler.rs:215-367 | For each strategy, exactly when the GET after an accepted INC replies with the number the INC replied; on documents that INC creates, which are counters, only at the empty path. |
| `Handlers.PushThenGetIff` | crates/ussl-transport/src/handler.rs:215-342 | For each strategy, exactly when the GET after an accepted PUSH replies with the old values and the new one. |
| `Handlers.DelThenGetIff` | crates/ussl-transport/src/handler.rs:215-305 | For each strategy, exactly when the GET after an accepted DEL of a path replies with `Null`. |
| `Handlers.BackupThenRestore` | crates/ussl-transport/src/handler.rs:505-550 | BACKUP, then RESTORE of a text that reads as the saved entries in any order: the reply counts them and every live document comes back with its strategy, text and positive time left. |
| `CommandEffects.ExistingIsServed` | crates/ussl-transport/src/handler.rs:237-475 | SET, PUSH, INC, DEL of a path, COMPACT and EXPIRE on an existing document do to it what they do alone, change nothing else, and reply so. |
| `CommandEffects.MissingIsCreated` | crates/ussl-transport/src/handler.rs:237-367 | SET, PUSH and INC on a missing document do it to a blank one: version 1, an empty object, no limit, LWW or for INC a counter. |
| `CommandEffects.MissingIsRefused` | crates/ussl-transport/src/handler.rs:273-503 | DEL, COMPACT, EXPIRE and TTL of a missing document are refused, each with its code. |
| `CommandEffects.BadIdIsRefused` | crates/ussl-transport/src/handler.rs:193-503 | A command for a document is refused without an id, and with a bad one, and changes nothing. |
| `CommandEffects.ValidIdIff` | crates/ussl-core/src/document.rs:28-48 | Good ids have 1 to 512 characters, all letters, digits, ":", "_" or "-". |
| `CommandEffects.CreateIs` | crates/ussl-transport/src/handler.rs:193-213 | CREATE adds a blank document with the strategy and limit asked for under a free id, and refuses a taken one. |
| `CommandEffects.DeleteIs` | crates/ussl-transport/src/handler.rs:273-305 | DEL of an id removes exactly that document and leaves its presence. |
| `CommandEffects.ExpireThenTtl` | crates/ussl-transport/src/handler.rs:450-503 | EXPIRE 0, then TTL: -1. EXPIRE with any other time, then TTL: what is left of it since creation, or -2 (clocks and limit in i64 range). |
| `CommandEffects.GetIs` | crates/ussl-transport/src/handler.rs:215-235 | GET by strategy and path: the text, the whole value, the value at the path, an error where there is none; it changes nothing. |
| `CommandEffects.PresenceIs` | crates/ussl-transport/src/handler.rs:369-397 | PRESENCE with data, then without: the client has the entry just set, the others theirs; after the connection closes it has none. |
| `CommandEffects.KeysAre` | crates/ussl-core/src/manager.rs:104-224 | KEYS lists all ids, those that begin or end as asked, or the one asked for. |
| `CommandEffects.InfoIs` | crates/ussl-transport/src/handler.rs:399-409 | INFO counts the documents and lists the subscriptions. |
| `CommandEffects.Gate` | crates/ussl-transport/src/handler.rs:116-191 | AUTH, PING and QUIT are always answered; only the right password authenticates; a locked connection gets nothing else. |
| `CommandEffects.SubscriptionsAre` | crates/ussl-transport/src/handler.rs:307-317 | SUB adds a pattern once, UNSUB removes it, and other patterns stay. |
| `CommandEffects.StrategyIs` | crates/ussl-core/src/crdt.rs:40-53 | A text names a strategy exactly when it is one of its names in any case. |
| `CommandEffects.EntryIs` | crates/ussl-core/src/manager.rs:262-281 | A backup entry is bad exactly when its id is, no strategy has such a name, or its state does not decode, in this order; a good one becomes a document spelled out. |
| `CommandEffects.EachDocumentRunsAlone` | crates/ussl-transport/src/handler.rs:116-173 | However commands of any number of connections are interleaved, an existing document ends as after its own commands alone, and these get the replies of that run. |
| `CommandEffects.CountersAddUp` | crates/ussl-transport/src/handler.rs:344-367 | So however many connections count at a place, the value there is the initial integer plus the sum of all amounts (wrapped), and each INC is answered the sum so far. |
| `CommandEffects.PushesAddUp` | crates/ussl-transport/src/handler.rs:319-342 | And the values pushed there from any connection and accepted extend the list in the order of the commands. |
| `ConnectionHandlers.ServeDocument` | crates/ussl-transport/src/handler.rs:237-448 | Commands on a document object compute the run step of `DocumentRuns`, automatic compaction following only successful SET, PUSH and INC. |
| `ConnectionHandlers.ConnectionHandler.OnExisting` | crates/ussl-transport/src/handler.rs:237-271 | A command on one of the shared document objects changes that document alone and replies as specified. |
| `ConnectionHandlers.ConnectionHandler.constructor` | crates/ussl-transport/src/handler.rs:34-61 | A new connection is authenticated exactly when there is no password. |
| `ConnectionHandlers.ConnectionHandler.HandleWriteCommand` | crates/ussl-transport/src/handler.rs:237-271 | SET, PUSH and INC refuse a bad id, create a missing document, and change only that one. |
| `ConnectionHandlers.ConnectionHandler.HandleDeleteCommand` | crates/ussl-transport/src/handler.rs:273-305 | DEL of a path changes a present document; DEL of an id removes it. |
| `ConnectionHandlers.ConnectionHandler.ExecuteCommand` | crates/ussl-transport/src/handler.rs:116-173 | Every command of an admitted connection, on the shared objects, computes the specified state and reply, the contents of INFO, KEYS and BACKUP included. |
| `ConnectionHandlers.ConnectionHandler.HandleOne` | crates/ussl-transport/src/handler.rs:116-132 | AUTH, PING and QUIT are always allowed, the rest only when authenticated. |
| `ConnectionHandlers.ConnectionHandler.TakeFromBuffer` | crates/ussl-transport/src/handler.rs:84-109 | One turn of the loop: parse one line, ask the limiter unless it is PING or QUIT, handle it. |
| `ConnectionHandlers.StaysOnCourse` | crates/ussl-transport/src/handler.rs:84-109 | One turn of the loop leads to the same end: session and replies so far, continued by draining the rest, are those of the whole drain. |
| `ConnectionHandlers.ConnectionHandler.ProcessData` | crates/ussl-transport/src/handler.rs:76-113 | The whole loop over parser, limiter, connection and documents computes the drain of `Handlers.DrainFrames`, replies in order. |
| `MemoryStorage.TotalWithout` | crates/ussl-storage/src/memory.rs:67-76 | The size total is the removed entry's size more than that of the rest, so the subtraction never underflows. |
| `MemoryStorage.TotalWith` | crates/ussl-storage/src/memory.rs:37-53 | After an insertion or overwrite the total is that of the other entries plus the new size. |
| `MemoryStorage.Storage.Store` | crates/ussl-storage/src/memory.rs:37-53 | Stores the entry and keeps the running total equal to the sum over the map. |
| `MemoryStorage.Storage.Delete` | crates/ussl-storage/src/memory.rs:67-76 | Removes the entry if present, says whether it was, and keeps the total. |
| `MemoryStorage.Storage.Stats` | crates/ussl-storage/src/memory.rs:96-101 | Number of entries and their total size. |
| `MemoryStorage.Replay` | crates/ussl-storage/src/memory.rs:37-101 | After any sequence of stores and deletes each id holds what was last stored since its last deletion, and the reported size is the sum over the map. |
| `Client.LinesAppend` | sdks/js/src/client.ts:194-199 | Text that arrives later continues the leftover, also between CR and LF. |
| `Client.EveryCommandIsAccountedFor` | sdks/js/src/client.ts:165-252 | In every run commands sent are those settled followed by those pending, in order; so the counts add up. |
| `Client.SettlementsAreHonest` | sdks/js/src/client.ts:206-216 | In every run a command settled by a line is rejected exactly when the line starts with "-ERR", and resolved otherwise. |
| `Client.ConnectedIsOpen` | sdks/js/src/client.ts:65-140 | In every run the client is connected exactly while its socket is open. |
| `Client.DeltaAsksForAll` | sdks/js/src/client.ts:222-234 | A delta that can be decoded asks for every document again, in order, on an open connection; any other delta changes nothing. |
| `Client.AttemptsAreLimited` | sdks/js/src/client.ts:236-275 | Until `disconnect`, attempts to reconnect are the closings since the last opening, at most the limit. |
| `Client.ReconnectsIff` | sdks/js/src/client.ts:125-275 | After a close the client waits to reconnect exactly when it has not used up its attempts; after `disconnect` it never does. |
| `Client.CloseLeavesNonePending` | sdks/js/src/client.ts:236-244 | The close event rejects every pending command and leaves none. |
| `Client.DeltaPayloadIs` | sdks/js/src/client.ts:222-225 | A line is a delta with a payload exactly when it splits into "#", digits, white space and a payload on one line; of all such payloads the shortest is taken. |
| `Client.NothingAfterAThrow` | sdks/js/src/client.ts:194-234 | A delta that throws ends the handling: whatever lines follow it have no effect. |
| `Client.BadDeltaHidesTheAnswer` | sdks/js/src/client.ts:194-234 | A concrete case: a delta with a payload that is no Base64, and the answer behind it settles nothing and is lost. |
| `Client.SettlementsFollowAnswers` | sdks/js/src/client.ts:165-252 | In every run, with any chunking, deltas, exceptions, disconnections and answers out of turn: what settles commands by a line are exactly the answers that find a command pending, in order. |
| `Client.HeardAnswersSettle` | sdks/js/src/client.ts:165-234 | On one connection every settlement is by such an answer, one each, in order. |
| `Client.AnswersSettleInOrder` | sdks/js/src/client.ts:194-220 | On one connection, for every chunking and placement of deltas that do not throw: the answers heard settle commands in order, and they are all the answers received exactly when none came with nothing pending. |
| `Client.KthAnswerSettlesKthCommand` | sdks/js/src/client.ts:165-220 | The k-th non-empty non-delta line settles the k-th command sent, and rejects it exactly when it starts with "-ERR". |
| `Client.StaleBufferIff` | sdks/js/src/client.ts:194-199 | Lines after a reconnection are read as sent, for every text, exactly when nothing was left in the buffer. |
| `Client.CloseKeepsTheBuffer` | sdks/js/src/client.ts:236-252 | Closing and opening again keeps the buffer. |
| `Client.ServerDeltasAreDelivered` | crates/ussl-protocol/src/response.rs:135-143 | A delta line as the server encodes it never throws in the client: its bytes are delivered, and only an empty delta is ignored. |
| `Client.USSLClient.constructor` | sdks/js/src/client.ts:46-63 | A new client has nothing pending, an empty buffer and no connection. |
| `Client.USSLClient.SendCommand` | sdks/js/src/client.ts:165-174 | Queues the command exactly when connected. |
| `Client.USSLClient.HandleDelta` | sdks/js/src/client.ts:222-234 | A delta refreshes every document, is ignored when malformed, and throws exactly when its payload does not decode. |
| `Client.USSLClient.HandleData` | sdks/js/src/client.ts:194-220 | The loop over the lines computes the specified state; it throws exactly when some line is a delta that throws. |
| `Client.USSLClient.HandleClose` | sdks/js/src/client.ts:236-252 | Every pending command is rejected, the buffer stays, and a reconnection is scheduled while attempts remain. |
| `EndToEnd.CommandsArriveIntact` | crates/ussl-protocol/src/parser.rs:36-57 | Any commands, in any words and spelling, cut into any chunks with parses anywhere between: once drained, the server has parsed exactly those commands. |
| `EndToEnd.LineRepliesAreOneAnswer` | sdks/js/src/client.ts:194-220 | A status, error, integer, null or pong reply is exactly one answer to the client. |
| `EndToEnd.LineRepliesSettle` | sdks/js/src/client.ts:194-220 | As it arrives, an encoded error rejects the first pending command, and an encoded status, integer, null or pong resolves it. |
| `EndToEnd.BulkRepliesAreMoreAnswers` | sdks/js/src/client.ts:194-220 | A bulk reply is its length line followed by whatever lines its data reads as. |
| `EndToEnd.AnswersOfReply` | crates/ussl-protocol/src/response.rs:103-164 | A reply of any kind is one answer (none for a delta) and the answers among the lines behind its first. |
| `EndToEnd.AnswersAreCounted` | crates/ussl-protocol/src/response.rs:103-164 | Exactly how many answers a reply is to the client, by its kind, arrays nested to any depth: a bulk one and those in its data, an array one and those of its items. |
| `EndToEnd.OneAnswerIff` | sdks/js/src/client.ts:194-220 | One reply settles one command exactly when it is an integer, null or pong, a status or error without a further answer in its text, a bulk or value without one in its data, or an array of deltas only; a delta settles none. |
| `EndToEnd.ValueRepliesAreTwoAnswers` | crates/ussl-protocol/src/response.rs:149-156 | So the reply to a GET, a JSON text on one line, is two answers: the second settles the next command. |

## Left out

- Yrs internals: a text is its content and the edits it remembers; the size of its encoded state is an arbitrary function (`Documents.Sizes`), and merging of concurrent updates belongs to the library; decoding a document's own encoded state is taken never to fail. `apply_update`, which merges a client's bytes, is not modelled.
- JSON parsing and printing, and floats: parameters (`Json` functions, `World.readBackup`); a float is its bit pattern.
- UTF-8 and Unicode: texts are sequences of characters and offsets count characters; case and white space are ASCII's.
- Overflow of the version counter and of the update counters, 2^64 changes away.
- Memory limits: padding a list to a huge index is possible here.
- Texts of error messages, the JSON that replies are rendered in, the order in which KEYS and BACKUP list a map's entries, and the version, subscriber count and timestamp in INFO and BACKUP; replies are compared by kind, code and content otherwise.
- Publishing of updates to subscribers and the matching of their patterns: a pure filter over I/O.
- Sockets, WebSocket, TLS, tasks, logging, metrics, the command line; the SQLite and PostgreSQL stores; persisting a document after a change.
- Clocks: instants are parameters, one reading of the wall clock for each command or manager call.
- Concurrent use of the manager and the storage: commands are atomic, and documents changed by other connections appear between chunks of data (`Handlers.Arrival`).
- Timers and the connection set-up of the client; `Opened` and `Closed` events stand for them.
- ValueHeap.SetPath: a document object keeps its value as a Dafny value and uses the write this method is proved to compute, so the walk is not run inside `Documents.Document`.
- CommandLines.RenderedParses: the `parse_*` functions are functions of the line and the tokenizer's position; the loops that move the position are methods in `Tokens.Tokenizer`.
- RateLimit.RateLimiter.TryAcquire: spurious failures of the weak exchange are a count, so a run of endless failures is not covered.
- BucketThreads.EveryInterleavingIsBounded: steps are sequentially consistent; weaker memory orders are not modelled.
- Documents.Document.ApplyEncoded: only on a fresh document, where merging a state is adopting it; `restore` uses it nowhere else.
- Handlers.EveryLineIsAnsweredOnce: a command that hangs ends the connection with the reply `Hung`, where the program never answers at all; the lock it holds on its document then blocks other connections too, which is not modelled.
