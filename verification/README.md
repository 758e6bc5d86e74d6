# Verified models of the CodeTracer WASM recorder

This project models the parts of the recorder where correctness is subtle, and proves what they promise.
`dafny verify dfyconfig.toml` checks all of it.

**Boundary logs** (`internal/boundarylog`). A recording is a JSON array of records: value bindings, calls and
returns, and realm markers, three overlapping bracketings of one tree of boundary crossings. A scanner splits
the growing array into records, an assembler rebuilds the tree, and two drivers check a guest module against
it: a batch driver over the finished recording and a streaming driver that pulls call groups as they arrive
and cannot yet know whether the recording's markers name imports.

- `Labels`, `Crossings`: binding names, import labels and the crossing records.
- `AssemblerSpec`, `Assembler`: the stack machine, as a specification over values and as a class that updates
  its fields; `AssemblerInvariant`: what every error-free run keeps; `Acceptance`: what every accepted recording is
  like, record by record; `HostRecords`: records that carry no boundary structure.
- `Producer`, `RoundTrip`, `RoundTripExact`, `LegacyRoundTrip`, `LegacyErasure`: the producer's rendering rules for
  the current and the older format, and reading back what was rendered.
- `ScannerSpec`, `Scanner`, `ScannerProofs`, `ScannerPrinting`, `ScannerExact`, `StreamSpec`, `StreamReader`,
  `StreamTheorems`: the byte scanner and the stream reader as classes, the language the scanner accepts, chunk
  independence, truncation.
- `JsonTokens`, `JsonArray`, `BatchLoad`: how a finished file is read, by a reader of the array's own that shares nothing
  with the scanner, and exactly where the two differ.
- `ReplaySpec`, `Faithful`, `Agreement`, `Truncation`, `RangeReplay`, `EndToEnd`, `Refusal`, `ReplayDriver`: both drivers,
  and which streams are refused whatever matched before. The guest is any deterministic module: from a state and the last import's results it calls an import, returns or traps. Host
  mutations are a function of the crossing number and value decoding a function of the raw value, the same for
  both drivers.
- `RecordReplay`, `LegacyReplay`: from an execution of the guest through its recording to the verdict, in both formats.

**CTFS containers** (`internal/ctfs`). `Base40Spec`, `Base40`: twelve-character names in a 64-bit word. `MappingSpec`,
`Mapping`: the five-level block mapping, with left-to-right enumeration of the trees as its reference.
`ContainerSpec`, `Containers`, `ContainerTheorems`: opening, finding and reading internal files. `ContainerLayout`: the
format in the direction a writer goes, for any choice of blocks; `ContainerWriter`: one such writer;
`ContainerAcceptance`: which bytes open.

**Directory listing and descriptors** (`imports/wasi_snapshot_preview1`, `internal/sys`, `internal/descriptor`).
`Dirents`, `DirentCaches`, `ReaddirSpec`, `Readdir`: the entry layout, the sliding window and `fd_readdir` on a byte
array, with the guest's enumeration loop. `Bits`, `TableSpec`, `DescriptorTable`, `FileDescriptors`, `DescriptorRuns`:
the bitmap table against a finite map, opening, renumbering and closing, and whole runs of them.

**Binary encoders** (`internal/leb128`, `internal/boundarylog/provider.go`). `Leb128Spec`, `Leb128`: encoders and
decoders in word arithmetic. `WasmBinary`, `WasmRoundTrip`, `ProviderSpec`, `ProviderTheorems`, `Providers`: synthesised
modules, printed and read back by a reader of the binary format.

`Wrappers`, `Bytes` and `Arithmetic` are shared. Go integers are modelled with their width where it matters: shifts,
sums and products are reduced modulo the word, and combining disjoint bits with OR is written as addition, next to the
proof that the bits are disjoint. Every lemma turns automatic induction off, so each proof is the one written down.

What the code does differently from what one would expect is stated as it is, with the exact condition:

- A recording is misread exactly when an export with values has an empty name or one of the form `import #n`. An export
  of such a name is closed by its own result: a recording in which it never returns is accepted.
- The stream takes apart arrays a file reader refuses (commas doubled, missing, leading or trailing, and other bytes
  after the closing bracket in the same chunk) and refuses `null`, which a file reader takes for an empty record or an
  empty array. On arrays of objects with single commas the two agree.
- In the older format a call with arguments only, followed by one with results only to the same import, is read as
  one call; and what the host calls while it serves an import without arguments is read back in the wrong place.
- A stream cut short is refused, although all of it matches, exactly when it has shown no import marker yet and the guest
  called an import without arguments and results.
- The batch driver accepts an import recorded outside every exported call; the streaming driver refuses it.
- Bytes after the closing bracket are examined only if a further chunk arrives.
- In a container with one shard whose free lists are all empty, an entry array after the lists is read as if it began at
  them, two entries early: a file in the last two of the declared entries is not found, unless nothing is in the others.
- Reading exactly two directory entries from the start returns none, although the cache's comment promises up to n.
- Renumbering a descriptor to itself closes the file and keeps its entry.
- The signed LEB128 decoders ignore bit 6 of the last byte of a full-length integer, and the 33-bit one accepts five
  bytes that do not end.

## Model

| member | source | states |
|---|---|---|
| EndToEnd.SameVerdictFromBytes | internal/boundarylog/stream_replay.go:58-276 | For every deterministic guest, every recording that is an array of objects with single commas, and every way its bytes arrive: the stream is clean if and only if the finished file loads and no read fails; and then the streaming driver accepts if and only if the batch driver accepts the file and every call group has exactly one top-level exported call, in first place; and then the two reports (calls, unchecked calls, quiescent states) are equal |
| EndToEnd.TruncatedVerdictFromBytes | internal/boundarylog/stream_replay.go:161-276 | A replay accepted from a recording cut anywhere before its closing bracket is exactly what the batch driver of the finished file does for its first calls: same states, same cursor, same counts |
| EndToEnd.TruncatedExactlyFromBytes | internal/boundarylog/stream_replay.go:201-276 | If the finished file replays and its call groups are one exported call each, the recording cut anywhere before its closing bracket is accepted if and only if what arrived of it holds an import marker or the calls that arrived make no `() -> ()` import |
| Refusal.AcceptedExactlyIfSound | internal/boundarylog/stream_replay.go:161-276 | For every guest, source and chunking: if anything is wrong with the bytes (a failed read, bytes no array of objects starts with, other bytes after it, a record that does not decode or that the assembler refuses, values that belong to nothing) the replay fails, whatever calls matched before; otherwise it is the replay of a complete recording if the array and every call in it are closed, and of a truncated one if not |
| Refusal.EndsExactly | internal/boundarylog/stream.go:327-427 | A stream is malformed exactly if something is wrong with its bytes, and clean exactly if nothing is and the array and every call in it are closed |
| ReplayDriver.ReplayProducer | internal/boundarylog/stream_replay.go:58-276 | The whole pipeline, from the reads of a producer to the verdict: the same, of the driver as it runs |
| Refusal.AcceptedGroups | internal/boundarylog/stream_replay.go:175-200 | Of every stream that is accepted, complete or truncated: each call group is one exported call at depth 0 followed by imports only, the groups are numbered through, and the call has a name the module exports, a manifest that agrees, as many arguments as parameters, and results if the signature has any |
| Truncation.TruncatedExactly | internal/boundarylog/stream_replay.go:256-276 | The same for the first n call groups of a recording |
| Truncation.ServeDefers | internal/boundarylog/replay.go:987-1015 | One imported call: a question is deferred exactly if the call goes unchecked, which happens to none in a recording with markers and to every `() -> ()` call where no marker was seen yet |
| RecordReplay.RecordedIsReplayed | internal/boundarylog/recording.go:240-274 | Whatever execution the guest has, its recording in the current format, read back, is accepted by the batch driver and by the streaming driver; the report counts exactly the execution's calls, none unchecked, and passes through its quiescent states |
| LegacyReplay.LegacyRecordedIsReplayed | internal/boundarylog/recording.go:381-402 | The same in the older format, where the report counts each `() -> ()` call as unchecked |
| RecordReplay.CallsInOrder | internal/boundarylog/recording.go:351-379 | The crossings read back show the execution position by position, and no export is nested |
| RecordReplay.GroupsInOrder | internal/boundarylog/assembler.go:404-413 | Each call group of such a recording is one exported call |
| BatchLoad.StreamAgainstFile | internal/boundarylog/recording.go:246-259 | For every way the bytes arrive: on an array of objects with single commas the stream ends cleanly if and only if the finished file loads and no read fails, with the file's own call groups; on any other bytes at most one of the two accepts |
| BatchLoad.LoadIsOnePass | internal/boundarylog/recording.go:251-259 | On such an array one pass of the scanner gives exactly what loading the file gives |
| BatchLoad.DocumentScans | internal/boundarylog/stream.go:189-266 | Whatever document the file reader takes, the scanner finds its objects and its end, unless there is a `null` in it, on which it fails |
| BatchLoad.CutFile | internal/boundarylog/stream.go:406-427 | A file that loads, cut anywhere before its closing bracket: a prefix of the file's call groups and then a truncation that counts them |
| BatchLoad.DoubledComma | internal/boundarylog/stream.go:208-213 | `[{},,{}]`, however it arrives: clean to the stream, refused as a file |
| BatchLoad.NullElement | internal/boundarylog/stream.go:228-232 | `[null]`, however it arrives: an empty record as a file, an error to the stream |
| JsonArray.ReadExactly | internal/boundarylog/recording.go:251-254 | The reader of a whole document accepts exactly the printed documents: arrays of objects and nulls with one comma between values and white space around tokens, or `null` |
| JsonArray.DocumentPrinted | internal/boundarylog/recording.go:251-254 | What is read prints back to the same bytes |
| JsonArray.DocumentRead | internal/boundarylog/recording.go:251-254 | Every printed document is read back |
| EndToEnd.PlainGroupShape | internal/boundarylog/stream_replay.go:293-358 | With export names that are not import labels, an assembled call group has the shape the streaming driver wants if and only if its first crossing is an export |
| EndToEnd.AssembledIsNumbered | internal/boundarylog/assembler.go:103-176 | What the assembler produces meets the premises of the replay theorems: crossing i has number i, and an import without values is bracketed by markers |
| Agreement.DriversAgree | internal/boundarylog/stream_replay.go:58-276 | On a complete stream of call groups the streaming verdict equals the batch verdict if and only if each group is one exported call; deferring the question about `() -> ()` imports to the end of the stream gives the batch answer |
| Agreement.StreamedIsReplayed | internal/boundarylog/stream_replay.go:161-276 | Streaming success implies batch success with an equal report, for any groups at all |
| Agreement.ReplayedIsStreamed | internal/boundarylog/stream_replay.go:161-276 | The converse, when every group is one exported call |
| Agreement.ImportOutsideCalls | internal/boundarylog/stream_replay.go:343-356 | The condition is needed: a recording with an import outside every exported call, accepted by the batch driver and refused by the streaming one |
| Agreement.TruncatedReplayStands | internal/boundarylog/stream_replay.go:161-234 | A verdict on a truncated stream holds for every recording that continues it, whatever that says about markers |
| Agreement.WholeReplay | internal/boundarylog/replay.go:293-380 | A whole-range replay passes exactly when the exports check out, none is nested, every call drives through and every crossing is consumed |
| Faithful.ReplayIsFaithful | internal/boundarylog/replay.go:833-1147 | A successful replay comes with an execution of the guest from its initial state that the recording shows crossing by crossing (kind, index or name, arguments, results, interleaving), with the counts and states reported |
| Faithful.FaithfulIsReplayed | internal/boundarylog/replay.go:346-377 | Every execution the recording shows is accepted, with its own counts and states, once the step budget covers its longest call |
| Faithful.AcceptedExactlyIfRecorded | internal/boundarylog/replay.go:293-380 | A recording is accepted if and only if it has no nested export and is the recording of some execution of this guest |
| Faithful.PositionByPosition | internal/boundarylog/replay.go:909-1015 | Following the recording with a cursor is the same as equality position by position after erasing the `() -> ()` calls a recording without import markers cannot hold |
| ReplaySpec.TupleDecodes | internal/boundarylog/values.go:305-320 | A tuple of recorded values decodes exactly if there are as many as types and each decodes at its own type |
| ReplaySpec.DecodesExactly | internal/boundarylog/values.go:305-320 | It decodes to given values if and only if each recorded value decodes, at the type in its place, to the value in its place |
| ReplaySpec.MatchedExactly | internal/boundarylog/replay.go:909-964 | An imported call is matched exactly if the crossing under the cursor is an import of that index whose arguments decode in their places to the call's; and which fault each difference gives |
| RangeReplay.RangeIsSlice | internal/boundarylog/replay.go:293-413 | If the whole recording replays, a range given by the caller's two numbers (0 as second: to the end), resumed in the exact state at its start, replays if and only if 0 <= from <= to <= the number of exported calls and there is a state to resume from when from > 0; it drives exactly to - from calls, through the same state at every quiescent point, the last one included |
| RangeReplay.AcceptedRange | internal/boundarylog/replay.go:293-345 | Of any range that is accepted, whether the whole replays or not: its points exist in order, there was a state to resume from, no export of the recording is nested, and every one has a name the module exports, a manifest that agrees, as many arguments as parameters, and results if the signature has any |
| RangeReplay.CursorAtPoint | internal/boundarylog/replay.go:316-345 | A range starts its cursor where the whole replay had it |
| ReplayDriver.Driver.MatchImportCrossing | internal/boundarylog/replay.go:909-964 | The recorded crossing an import call consumes, or the divergence: index, arguments and position must match |
| ReplayDriver.Driver.ServiceUnwitnessedValuelessImport | internal/boundarylog/replay.go:987-1015 | A `() -> ()` call the recording does not hold is let through without moving the cursor, and remembered for the end of the stream |
| ReplayDriver.Driver.ServiceImport | internal/boundarylog/replay.go:833-900 | One import call: matched against the crossing under the cursor, host mutation applied, recorded results handed back; a first error sticks |
| ReplayDriver.Driver.RunGuest | internal/boundarylog/replay.go:1064-1120 | The guest's import calls in order, up to its return or trap |
| ReplayDriver.Driver.CallExport | internal/boundarylog/replay.go:1064-1147 | One exported call, with its recorded results compared at the end |
| ReplayDriver.Driver.TopLevelExports | internal/boundarylog/recording.go:128-136 | The depth-0 exports in order |
| ReplayDriver.Driver.HasNestedExports | internal/boundarylog/recording.go:143-151 | Whether some export is not at depth 0 |
| ReplayDriver.Driver.CheckAll | internal/boundarylog/replay.go:502-571 | Every recorded export is checked: it has a name, the module exports it, the manifest agrees with the module about its signature, its arguments are as many as its parameters, and it has results if the signature does |
| ReplayDriver.Driver.DriveCalls | internal/boundarylog/replay.go:346-361 | The calls of a range one after the other, collecting the states between them |
| ReplayDriver.Driver.Run | internal/boundarylog/replay.go:293-380 | The batch driver: computes exactly the specified replay of the recording |
| ReplayDriver.Driver.AppendGroup | internal/boundarylog/stream_replay.go:293-358 | One group appended to the growing recording; refused unless it is one exported call in first place |
| ReplayDriver.Driver.DriveGroup | internal/boundarylog/stream_replay.go:161-200 | One group appended, its markers noted, and its call driven |
| ReplayDriver.ReplayRecording | internal/boundarylog/replay.go:224-227 | A fresh driver on a whole recording |
| ReplayDriver.DriveStream | internal/boundarylog/stream_replay.go:161-200 | The loop that pulls groups and drives them as they arrive; whether it ended clean, truncated or broken |
| ReplayDriver.ReplayStream | internal/boundarylog/stream_replay.go:58-276 | The streaming driver: computes exactly the specified streaming replay, deferred imports resolved at the end; a malformed stream fails |
| RoundTrip.ReconstructUndoesRecording | internal/boundarylog/assembler.go:85-354 | Parser undoes printer, current format: a recording of a forest of calls reads back as its preorder with arguments, results and depths, one call group per root, and the format flag set exactly if an import was called |
| RoundTripExact.RecoveredExactlyWhenRenderable | internal/boundarylog/recording.go:351-379 | That round trip holds if and only if every export with values has a name that is neither empty nor of the form `import #n` |
| RoundTripExact.ImportLikeNameIsNotRecovered | internal/boundarylog/recording.go:481-490 | The concrete failure: an export named `import #3` with one argument |
| LegacyErasure.ReconstructUndoesLegacyRecording | internal/boundarylog/recording.go:381-402 | Parser undoes printer, older format, calls nested to any depth: every recording is accepted, without a format witness; and it reads back as the calls made with exactly the `() -> ()` imports erased if and only if no result run completes an earlier import left open, and whatever the host calls while it serves an import comes under arguments of that import or under nothing |
| LegacyRoundTrip.LegacyIsFound | internal/boundarylog/assembler.go:85-240 | What is read back of any recording in the older format, readable or not |
| LegacyErasure.SignedIsReadable | internal/boundarylog/recording.go:381-402 | With one signature per import, and exports called only under imports with arguments, only `() -> ()` calls are lost |
| LegacyErasure.ImportsExact | internal/boundarylog/assembler.go:85-176 | The imports of one exported call are found as made, with the `() -> ()` ones erased, if and only if they are readable after what was left open before them |
| LegacyErasure.TwoReadAsOne | internal/boundarylog/assembler.go:152-176 | A concrete recording read back with one call too few |
| LegacyErasure.CalledBackTooEarly | internal/boundarylog/assembler.go:194-212 | A concrete recording read back in the wrong order, as a call does not wait for the results of the import it is made in |
| LegacyRoundTrip.ReturnIgnoresDangling | internal/boundarylog/assembler.go:219-240 | A return closes whatever import its call left open |
| AssemblerInvariant.PushKeepsInvariant | internal/boundarylog/assembler.go:103-413 | One record keeps: crossing i numbered i, stack indices increasing, depth equal to stack position, depths a preorder of a forest, completed groups tiling a prefix and never changed, the marker flag exact, and an import without values always bracketed by markers |
| AssemblerInvariant.RunKeepsInvariant | internal/boundarylog/assembler.go:103-413 | So does every error-free run, which only ever extends what it has |
| AssemblerInvariant.FinishKeepsInvariant | internal/boundarylog/assembler.go:422-447 | At the end of input the groups tile all crossings |
| AssemblerInvariant.ReconstructInvariant | internal/boundarylog/recording.go:423-434 | All of it holds of every recording that is accepted |
| Acceptance.AcceptedIsWellFormed | internal/boundarylog/assembler.go:103-447 | Of every accepted recording, whoever wrote it: calls and values refer to names declared before them, a value with a binding name has a payload and slot 0 or the slot after the value before it, no host record is refused, and the exported calls recovered are the functions called, in order; and unless a called function is named like an import, calls, returns and markers nest properly, nothing but imports is open at the end, and every value of an exported call stands directly inside it |
| Acceptance.UnreturnedCall | internal/boundarylog/assembler.go:152-176 | The exception is real: an exported function named `import #n` whose call is closed by its result, in an accepted recording without a return |
| HostRecords.NeutralChangesNothing | internal/boundarylog/assembler.go:243-300 | Accepted host records, markers of other producers, export markers, paths, steps, unknown records and values of other variables, inserted anywhere between value runs of any recording, change nothing: not whether it is accepted, not its crossings, not its groups |
| HostRecords.RefusedHostRecord | internal/boundarylog/assembler.go:269-292 | A host record that is refused refuses the recording, wherever it stands |
| HostRecords.RecordingWithHostState | internal/boundarylog/assembler.go:243-300 | The round trip of the current format over recordings with such records in them |
| HostRecords.LegacyRecordingWithHostState | internal/boundarylog/assembler.go:243-300 | The round trip of the older format over them |
| Assembler.Assembler.CloseDanglingImports | internal/boundarylog/assembler.go:85-100 | Pops imports off the stack up to the kept one, a marked one, or an export; the new state is the specified one |
| Assembler.Assembler.CloseRun | internal/boundarylog/assembler.go:103-120 | Ends the pending value run: dangling imports closed, the run attributed; the new state is the specified one |
| Assembler.Assembler.ApplyRun | internal/boundarylog/assembler.go:122-176 | Attributes a run to the open call, to a call without markers, or to a new import; the new state is the specified one |
| Assembler.Assembler.OpenMarkedImport | internal/boundarylog/assembler.go:310-329 | An ENTER marker adopts the open import of that index or opens one; the new state is the specified one |
| Assembler.Assembler.CloseMarkedImport | internal/boundarylog/assembler.go:337-354 | A LEAVE marker must match the marked import on top; the new state is the specified one |
| Assembler.Assembler.PushEvent | internal/boundarylog/assembler.go:269-300 | A realm marker ends the run and opens or closes an import; the new state is the specified one |
| Assembler.Assembler.PushValue | internal/boundarylog/assembler.go:357-400 | A value joins the run of its binding or starts a new one; slots must be consecutive; the new state is the specified one |
| Assembler.Assembler.NoteGroupBoundary | internal/boundarylog/assembler.go:404-413 | A group completes when nothing is open; the new state is the specified one |
| Assembler.Assembler.PushCall | internal/boundarylog/assembler.go:194-212 | A call opens an export crossing; the new state is the specified one |
| Assembler.Assembler.PushReturn | internal/boundarylog/assembler.go:219-240 | A return closes the export on top, after its results; the new state is the specified one |
| Assembler.Assembler.Push | internal/boundarylog/assembler.go:179-255 | One record; the new state is the specified one |
| Assembler.Assembler.Finish | internal/boundarylog/assembler.go:422-447 | The end of input: everything closed or an error; the new state is the specified one |
| Assembler.ReconstructCrossings | internal/boundarylog/recording.go:423-434 | A fresh assembler over all records, then finished |
| Labels.BindingNameRoundTrip | internal/boundarylog/recording.go:442-467 | A binding name, such as `label:arg0`, parses back to its label, role and slot, for labels with colons in them |
| Labels.ImportLabelRoundTrip | internal/boundarylog/recording.go:475-490 | `import #n` parses back to n, for every 32-bit n |
| Labels.Spellings | internal/boundarylog/recording.go:436-490 | What the names look like: `run:arg0`, `import #7:ret12`, `import #1234` |
| ScannerProofs.ChunkIndependent | internal/boundarylog/stream.go:189-278 | For any bytes and any cutting into chunks the elements found are the same; only bytes after the closing bracket depend on chunking, being examined exactly if a later chunk arrives |
| ScannerProofs.DrainClosed | internal/boundarylog/stream.go:218-226 | After the closing bracket only separators are accepted |
| ScannerPrinting.ScanUndoesPrinting | internal/boundarylog/stream.go:189-266 | A printed array of brace-balanced objects, with braces and escaped quotes inside strings, scans to exactly its elements |
| ScannerExact.ScannedExactly | internal/boundarylog/stream.go:140-278 | The scanner reaches a closing bracket with given elements and given bytes left if and only if the bytes are white space, an array of exactly those brace-balanced objects with white space and commas in any number around them, and what is left |
| ScannerExact.RefusedExactly | internal/boundarylog/stream.go:189-266 | It refuses bytes if and only if no continuation makes them start with such an array |
| Scanner.Scanner.Pending | internal/boundarylog/stream.go:176-181 | Whether an element is unfinished |
| Scanner.Scanner.Compact | internal/boundarylog/stream.go:271-278 | Drops the consumed bytes and keeps the unfinished element |
| Scanner.Scanner.Start | internal/boundarylog/stream.go:190-206 | Skips to the opening bracket |
| Scanner.Scanner.BeginElement | internal/boundarylog/stream.go:208-235 | Skips separators to the next element or the closing bracket |
| Scanner.Scanner.ScanElement | internal/boundarylog/stream.go:237-264 | Scans to the closing brace of the element, tracking strings and escapes |
| Scanner.Scanner.Next | internal/boundarylog/stream.go:189-266 | The next element; a call that finds none inside the array leaves only the unfinished element in the buffer |
| StreamTheorems.StreamIsOnePass | internal/boundarylog/stream.go:327-427 | However the bytes arrive, the stream ends cleanly if and only if one pass over all of them succeeds (no failed read, only separators seen after the array), and then the groups are exactly the groups of the pass and their concatenation is its crossings |
| StreamTheorems.TruncationIsSafe | internal/boundarylog/stream.go:406-427 | Cutting an accepted recording before its closing bracket hands out a prefix of the same groups, then a truncation that says exactly how many, which of the three kinds it is, how many crossings were open and how many bytes of a record were left over; in the middle of a crossing, one is open |
| StreamTheorems.ProcessStream | internal/boundarylog/stream.go:360-397 | The reader's state after all reads depends on the bytes alone |
| StreamReader.StreamReader.Drain | internal/boundarylog/stream.go:380-397 | Every complete element in the buffer is decoded and pushed |
| StreamReader.StreamReader.Pump | internal/boundarylog/stream.go:360-377 | One read: fed and drained, or the error |
| StreamReader.StreamReader.FinishStream | internal/boundarylog/stream.go:406-427 | The verdict at the end of input |
| StreamReader.StreamReader.GroupAt | internal/boundarylog/stream.go:329-335 | The i-th completed group |
| StreamReader.StreamReader.NextGroup | internal/boundarylog/stream.go:327-353 | The next group of the specified stream, or its end, or its failure, which repeats |
| Readdir.ListDirectory | imports/wasi_snapshot_preview1/fs.go:862-939 | With a buffer that holds the longest entry and a result beside it, a guest that parses complete entries and passes back the last `d_next` ends, sees no error, and has listed `.` with the directory's inode, `..` with none, and then every file once, in order, numbered from 1, whatever was read through the cache before |
| Readdir.FdReaddir | imports/wasi_snapshot_preview1/fs.go:862-939 | One call: exactly when it fails and how, and what a failure leaves in memory and in the window; otherwise memory holds exactly the entries that fit, plus a bare header if that fits, and then the used length at the result pointer: the smaller of the buffer and the rest of the listing, so a shorter one means the listing is exhausted; nothing else changed |
| Readdir.GuestSees | imports/wasi_snapshot_preview1/fs.go:996-1031 | Parsing the used part of the buffer gives exactly the entries that fit, whatever stale bytes follow |
| Readdir.HeaderOfTheNext | imports/wasi_snapshot_preview1/fs.go:996-1031 | Of the first entry that does not fit whole, the guest finds number, inode, name length and type behind the others as soon as the header fits |
| ReaddirSpec.ReadEnough | imports/wasi_snapshot_preview1/fs.go:885-905 | Reading `bufLen/24 + 2` entries ahead never changes what is written or reported, as no entry is shorter than 25 bytes |
| Dirents.ParseEntries | imports/wasi_snapshot_preview1/fs.go:1025-1031 | Encoded entries parse back, with their `d_next` numbers, followed by whatever follows |
| Readdir.MaxDirents | imports/wasi_snapshot_preview1/fs.go:947-991 | How many entries fit, how many bytes they take, and how much of the next one is cut off |
| Readdir.WriteDirents | imports/wasi_snapshot_preview1/fs.go:996-1022 | Writes exactly the entries that fit and a bare header, inside the bytes computed for it |
| Readdir.WriteDirent | imports/wasi_snapshot_preview1/fs.go:1025-1031 | One 24-byte header, in place |
| DirentCaches.DirentCache.Read | internal/sys/fs.go:167-239 | ENOENT exactly for positions outside the window; otherwise, unless the directory fails, the listing from the position, up to n entries, and the window slid to it; reading exactly two from the start returns none. Exactly when the directory's failure shows, and that the position can be read again after it |
| DirentCaches.DirentCache.Populate | internal/sys/fs.go:185-202 | The first read: dot entries and n-2 files, in 32-bit arithmetic; the dot entries alone if the directory fails |
| DirentCaches.DirentCache.DropBefore | internal/sys/fs.go:204-221 | The window starts at the position read |
| DirentCaches.DirentCache.Extend | internal/sys/fs.go:223-236 | The window is filled to n entries or to the end of the directory, or left as it is if the directory fails |
| DirentCaches.DirentCache.CachedDirents | internal/sys/fs.go:242-251 | At most n entries of the window |
| Mapping.Mapper.ResolveDataBlock | internal/ctfs/container.go:464-545 | The walk returns exactly the i-th leaf, left to right, of the chain of level-1 to level-5 trees, and fails exactly where that leaf is a hole or past the end |
| Mapping.Mapper.DescendTo | internal/ctfs/container.go:500-545 | The descent: the leaf of one tree |
| Mapping.CapacityFits | internal/ctfs/container.go:408-414 | No capacity the walk evaluates overflows 64 bits, for every accepted block size and every size a slice can have |
| Mapping.LevelCapacity | internal/ctfs/container.go:408-414 | The power in 64-bit arithmetic, exact when it fits |
| MappingSpec.EnumerationIsSlots | internal/ctfs/container.go:464-545 | The enumeration is also the word at a slot: along the chain to a tree, then down a path of child slots |
| MappingSpec.PathIsExact | internal/ctfs/container.go:500-517 | Every slot on a path is a child slot, never the chain slot, and the path determines its leaf |
| MappingSpec.DistinctSlots | internal/ctfs/container.go:464-545 | Distinct block indices use distinct slots |
| Mapping.ResolvedIsInside | internal/ctfs/container.go:535-545 | A block served is a whole block of the file, and not block 0 |
| Mapping.ListedExactly | internal/ctfs/container.go:549-575 | The block list exists exactly if every block resolves, and lists them in order |
| Mapping.Mapper.ReadBlock | internal/ctfs/container.go:577-588 | A whole block, refused outside the container |
| Mapping.Mapper.CachedBlock | internal/ctfs/container.go:553-565 | The cache never changes what is read |
| Mapping.Mapper.DataBlocks | internal/ctfs/container.go:549-575 | The blocks of a file, or nothing when one is missing |
| Mapping.Mapper.ReadEntry | internal/ctfs/container.go:378-400 | The file: its blocks end to end, cut to its size |
| Mapping.Mapper.Copy | internal/ctfs/container.go:387-399 | Each block copied to its place in the output |
| ContainerTheorems.TailChangesNothing | internal/ctfs/container.go:175-218 | Appending less than a block to a clean container changes whether it opens, and what any internal file reads as, not at all |
| ContainerLayout.LaidOutIsRead | internal/ctfs/container.go:236-463 | Reader undoes writer: a container laid out as the format says, with any block size, any named files in any slots, any choice of blocks for data and mapping, any version and any tail, opens; each file is read back byte for byte, the first one if two have the same name, and no other name is found |
| ContainerLayout.FileRead | internal/ctfs/container.go:378-545 | One file: if level-1 to level-5 mapping blocks name its data blocks in order, wherever they are, its bytes are read back |
| ContainerLayout.SlotsRead | internal/ctfs/container.go:249-318 | An entry array is taken for one exactly if some slot of it is used |
| ContainerLayout.AfterEmptyFreeLists | internal/ctfs/container.go:249-282 | Where that fails: with one shard and empty free lists before the array, a file in slot k is found if and only if no number of entries is declared, or k + 2 is below that number, or no slot at all has its number plus two below it and is used |
| ContainerWriter.WrittenIsRead | internal/ctfs/container_write_test.go:53-90 | Round trip with a writer that places files one after the other: everything written is read back and nothing else is found, for files of any size five mapping levels hold, the empty one included |
| ContainerWriter.WrittenIsLaidOut | internal/ctfs/container.go:402-463 | What it writes is laid out as the format says |
| ContainerAcceptance.OpensExactly | internal/ctfs/container.go:135-310 | A file opens if and only if its bytes are the magic, no encryption, a block size that is a multiple of 8 and at least 16 and does not exceed the file, and, at 16 or after the free lists, as many entries as declared (or as fit) that are each all zero or a valid name with a mapping block inside the container, one of them used |
| Containers.Open | internal/ctfs/container.go:135-230 | Exactly the files with the magic, no encryption, a usable block size, a whole first block and an entry array open |
| Containers.LocateEntryArray | internal/ctfs/container.go:249-282 | The first candidate offset whose entries hold up |
| Containers.ValidateEntries | internal/ctfs/container.go:284-310 | Every used entry has a name word and a block of the container, and one is used |
| Containers.CheckName | internal/ctfs/container.go:292-299 | Whether a name word decodes to a name that encodes to it |
| Containers.ReadFile | internal/ctfs/container.go:345-376 | The first entry of that name, read |
| Base40Spec.AcceptedExactlyIfEncoding | internal/ctfs/container.go:292-299 | A name word is accepted if and only if it is the encoding of some valid name, that is, positive, below 40^12 and without a padding digit |
| Base40Spec.DecodeUndoesEncode | internal/ctfs/base40.go:71-82 | Decoding undoes encoding |
| Base40Spec.EncodeUndoesDecode | internal/ctfs/base40.go:30-66 | Encoding undoes decoding exactly on words without a padding digit |
| Base40Spec.EncodingIsInjective | internal/ctfs/base40.go:30-66 | Names never share an encoding, and it fits 64 bits |
| Base40Spec.DigitAt | internal/ctfs/base40.go:30-66 | Character i of a name is the base-40 digit of weight 40^i |
| Base40Spec.DigitIsPlace | internal/ctfs/base40.go:5-15 | The digit of a character is its place in the alphabet `0`-`9`, `a`-`z`, `.`, `/`, `-`, counted from 1 |
| Base40Spec.OnlyThoseCharacters | internal/ctfs/base40.go:44-57 | No other byte has a digit |
| Base40.EncodeName | internal/ctfs/base40.go:30-66 | Fails exactly on an invalid name; the 64-bit sum is the base-40 value |
| Base40.DecodeName | internal/ctfs/base40.go:71-82 | The characters up to the first padding digit |
| ProviderTheorems.ProviderReadsBack | internal/boundarylog/provider.go:48-167 | Reading the bytes by section 5.5 of the WebAssembly Core Specification gives the described module: sections in canonical order, nothing left over |
| ProviderTheorems.EverythingIsExported | internal/boundarylog/provider.go:142-163 | Every function, memory and global is exported under its own name at the index that carries its own signature; its own minimum and maximum; its own type byte, mutability and initial value, an integer being the two's complement of its bits |
| ProviderTheorems.TypesAreDistinct | internal/boundarylog/provider.go:64-80 | The function types are pairwise distinct |
| ProviderTheorems.TypeIsListed | internal/boundarylog/provider.go:64-80 | Each function's signature is listed, at the index found when it was reached |
| WasmRoundTrip.ModuleReadsBack | internal/boundarylog/provider.go:40-47 | Any module within the format's limits reads back from its bytes |
| Providers.Encode | internal/boundarylog/provider.go:48-167 | An error exactly when the provider is empty, has functions but no stub module, or has a global that does not parse; otherwise the described module's bytes |
| Providers.CollectTypes | internal/boundarylog/provider.go:64-80 | One type per distinct signature in order of appearance, compared by encoding |
| Providers.FuncTypeInjective | internal/boundarylog/provider.go:171-182 | Comparing encodings compares signatures |
| Providers.EncodeFuncType | internal/boundarylog/provider.go:171-182 | The bytes of a function type |
| Providers.ConstExpr | internal/boundarylog/provider.go:186-207 | The initialiser of a global: sign-wrapped integers, raw float bits |
| Providers.TypeSection | internal/boundarylog/provider.go:82-87 | The type section |
| Providers.ImportSection | internal/boundarylog/provider.go:89-97 | The import section |
| Providers.MemorySection | internal/boundarylog/provider.go:100-115 | The memory section |
| Providers.GlobalSection | internal/boundarylog/provider.go:118-139 | The global section, or the first global that does not parse |
| Providers.ExportSection | internal/boundarylog/provider.go:142-163 | The export section: functions, memories, globals |
| Providers.AppendSection | internal/boundarylog/provider.go:210-214 | A section header and its body |
| Providers.AppendName | internal/boundarylog/provider.go:217-220 | A length-prefixed name |
| Providers.AppendULEB128 | internal/boundarylog/provider.go:223-235 | The same bytes as the unsigned encoder |
| Providers.AppendSLEB128 | internal/boundarylog/provider.go:238-249 | The same bytes as the signed encoder |
| Leb128Spec.UnsignedRoundTrip | internal/leb128/leb128.go:75-157 | Every unsigned value survives encoding and decoding, trailing bytes ignored |
| Leb128Spec.SignedRoundTrip | internal/leb128/leb128.go:41-285 | Every signed 32- and 64-bit value survives encoding and decoding, trailing bytes ignored |
| Leb128Spec.BlockTypeRoundTrip | internal/leb128/leb128.go:205-243 | Every 33-bit block type survives encoding and decoding |
| Leb128Spec.SignedAcceptsExactly | internal/leb128/leb128.go:172-199 | The signed decoders return the value of a terminated string exactly when it is in range, and otherwise accept exactly the full-length strings where only bit 6 of the last byte disagrees with the sign |
| Leb128Spec.OutOfRangeAccepted | internal/leb128/leb128.go:172-199 | The concrete failure: five bytes of value -2^34 decode as the 32-bit integer 0 |
| Leb128Spec.UnterminatedAccepted | internal/leb128/leb128.go:205-243 | The 33-bit decoder accepts an integer that does not end, exactly when five bytes continue and their sign bits agree |
| Leb128Spec.UnsignedLength | internal/leb128/leb128.go:75-94 | The unsigned encoding is as short as the value allows |
| Leb128Spec.SignedLength | internal/leb128/leb128.go:41-63 | The signed encoding is as short as the value allows |
| Leb128.EncodeUint64 | internal/leb128/leb128.go:75-94 | The shortest unsigned string |
| Leb128.EncodeInt64 | internal/leb128/leb128.go:41-63 | The shortest signed string |
| Leb128.DecodeUint32 | internal/leb128/leb128.go:111-131 | Accepts exactly the terminated strings of at most 5 bytes whose value is below 2^32, with that value and length |
| Leb128.LoadUint64 | internal/leb128/leb128.go:133-157 | Accepts exactly the terminated strings of at most 10 bytes whose value is below 2^64 |
| Leb128.DecodeInt32 | internal/leb128/leb128.go:172-199 | The signed 32-bit decoder, in 32-bit arithmetic |
| Leb128.ConcludeInt32 | internal/leb128/leb128.go:182-197 | Its sign extension and overflow checks |
| Leb128.DecodeInt64 | internal/leb128/leb128.go:258-285 | The signed 64-bit decoder, in 64-bit arithmetic |
| Leb128.ConcludeInt64 | internal/leb128/leb128.go:268-283 | Its sign extension and overflow checks |
| Leb128.DecodeInt33AsInt64 | internal/leb128/leb128.go:205-243 | The block type decoder |
| Leb128.ConcludeInt33 | internal/leb128/leb128.go:223-242 | Its masking, sign extension and overflow checks |
| DescriptorTable.Table.Insert | internal/descriptor/table.go:57-78 | The least unused key, and the map updated there; the table grows when full |
| DescriptorTable.Table.InsertAt | internal/descriptor/table.go:97-109 | A map update at any non-negative key |
| DescriptorTable.Table.Lookup | internal/descriptor/table.go:81-93 | The map's value, for any key, negative ones included |
| DescriptorTable.Table.Delete | internal/descriptor/table.go:112-125 | The key removed from the map |
| DescriptorTable.Table.Len | internal/descriptor/table.go:33-41 | The number of set bits is the size of the map |
| DescriptorTable.Table.Range | internal/descriptor/table.go:129-143 | Keys in ascending order, each once, all of them unless the callback stops at the last one |
| DescriptorTable.Table.Grow | internal/descriptor/table.go:44-50 | More room, same map |
| TableSpec.InsertContents | internal/descriptor/table.go:97-109 | Setting a bit and an item is a map update |
| TableSpec.DeleteContents | internal/descriptor/table.go:112-125 | Clearing a bit is a map removal |
| TableSpec.CountAll | internal/descriptor/table.go:33-41 | The map has as many keys as masks have set bits |
| Bits.NotFull | internal/descriptor/table.go:65-66 | A mask's complement is non-zero exactly if it has a clear bit |
| FileDescriptors.FSContext.OpenFile | internal/sys/fs.go:271-287 | A file that opens gets the least descriptor not in use; one that does not changes nothing |
| FileDescriptors.FSContext.Renumber | internal/sys/fs.go:290-315 | Moves exactly one entry; fails, changing nothing, exactly for a source not open, a negative target or a pre-open at either end; closes a file at the target; never moves or removes a pre-open |
| FileDescriptors.FSContext.CloseFile | internal/sys/fs.go:349-359 | Removes the entry exactly if the file closes |
| DescriptorRuns.StepIsLive | internal/sys/fs.go:290-315 | Every operation keeps descriptors distinct and referring to open files, if and only if it is not a renumbering of a descriptor to itself, which closes the file and keeps the entry |
| DescriptorRuns.RunIsLive | internal/sys/fs.go:265-359 | So does every run without one; and a pre-open stays in place until it is closed |
| DescriptorRuns.Perform | internal/sys/fs.go:271-359 | A request carried out on the table is one step of such a run |
| DescriptorRuns.PerformAll | internal/sys/fs.go:271-359 | Any sequence of requests, carried out on the table, leaves it in the state its run ends in, with descriptors live if none renumbers one to itself |

## Left out

- RunGuest: takes a step budget, so a call that makes more imports than that counts as failing; the theorems hold for every budget, and acceptance asks for some sufficient one. Guests that never return are not modelled.
- Table.Insert: requires an unused key below 2^31; past that the source indexes out of range.
- Table.Range: the callback has no effects of its own; the visited keys are the result.
- ReadEntry: a size no slice can have (2^63 and up) makes the source panic; here it yields no bytes.
- DirentCache.Read: the directory does not change, a `Readdir` or `Seek` that fails does not move in it, and it has at most 2^32 - 1 entries.
- OpenFile: whether the file system opens the file is a parameter, and fewer than 2^31 descriptors are in use.
- CloseFile: whether closing the underlying file succeeds is a parameter.
- ProviderReadsBack: for modules whose bytes fit a 32-bit length and whose function types are value types; names are bytes, and UTF-8 validity is not checked.
- RangeIsSlice: `Resume` restores the exact state; nothing is claimed about one that does not.
- RecordedIsReplayed: the guest's values are those its recorded values decode to; how a value is written as text is not modelled.
- ReadDocument: objects are brace-balanced texts with strings; what is inside them, and the nesting limit of the JSON package, belong to the record decoder.
- JSON decoding of a record, base64, and decimal or float text: a decoder is a parameter of the stream and of the file, the value decoder one of the replay, and a global's parsed value one of the provider.
- PushEvent: whether a host record can be folded into the state, and the state, are a parameter; that an accepted one changes nothing else and a refused one refuses the recording is proved.
- ContainerWriter: the producer's writer is not part of the repository; this one follows the layout the reader's comments give.
- Host state validation and reconciliation, eager or deferred instantiation, host module building, the `AtQuiescentPoint` hook, manifest loading and its cross-check of imports: signatures, initial state and mutations are given, and what the manifest says of exports.
- The WebAssembly runtime itself: guests are abstract.
- `FollowFile`, polling, goroutines and files: a source is a sequence of reads, a container a sequence of bytes.
- Error messages: only which outcome is reached.
- `Names`, `Has` and the version byte of a container, `Reset` and `Close` of the table: a list of the names that are found by the lookup modelled here, a byte nothing else depends on, and loops over the table without a result.
- The rest of the WASI functions, sockets, clocks, the trace writer and the foreign-function container writer.
