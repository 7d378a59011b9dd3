# Machinen in Dafny

This project models the parts of Machinen, which runs microVMs, where a mistake is easy to
make and hard to see: byte-level codecs, streaming parsers that meet their input in
arbitrary pieces, tables on disk shared by processes, and asynchronous refreshes that race
with the events they react to. Each module follows one source file or one group of
functions, and each loop or mutating object of the source is a method or a class proved
against a specification function, about which the lemmas then say what the code is for.

- `Protobuf`, `LazyPagemap`, `PagemapMeaning`, `MmImage`: the rewriter of CRIU page maps for
  lazy restore. Numbers are read as JavaScript does, doubles and 32-bit operators included
  (`JsNumber`).
- `ExecFrames`, `ExecProtocol`: the exec and PTY frame parsers.
- `WorkspacePolling`, `PollingRuns`: the desktop's polling service and the state it watches.
- `Registry`: VM entries and name pins.
- `LinkTargets`, `LinkedMounts`: the search for the mounts that symbolic links in a home
  directory need.
- `GvproxyLock`, `GvproxyRuns`: installing gvproxy from several processes at once.
- `Icmp`: patching a pending echo request in a captured process.
- `Quiet`, `MarkerScanner`, `TerminalOutput`, `DesktopClient`, `DesktopAnswers`, `Multiplex`:
  streaming buffers.
- `Newc`, `TinyInitramfs`, `FirecrackerArchive`: the cpio writers and a reader for them.
- `ProcessTree`, `PhaseLine`: the process tree and the phase report.

The file system, the clock, the network and other processes are parameters: maps for files,
program counters for processes, steps for time. `dafny verify dfyconfig.toml` checks
everything.

Where code and intention part, the code is modelled, and a lemma says exactly when they
agree:

- the exec parser resumes after an exit frame when another chunk comes, so what it delivers
  is independent of the chunks exactly when no payload byte, no bad header and no other exit
  code follow the first exit frame (`ExecFrames.ChunkIndependentIff`);
- `flags | PE_LAZY` is a signed 32-bit operation (`LazyPagemap.OrLazyAddsOnlyLazyIffBelowTwo31`,
  `PagemapMeaning.RewriteSucceedsIff`);
- `stop()` declares the polling service idle while a refresh may be in flight
  (`WorkspacePolling.StopKeepsSingleFlightIffIdle`);
- looking up a name whose VM has died drops the pin and keeps the entry
  (`Registry.FindByNameKeepsInvIff`);
- a lock left by a crash is never removed, so the install is blocked for good
  (`GvproxyRuns.CanInstallIff`);
- a pair of Ctrl-] split over two chunks sends bytes it should not
  (`Multiplex.SentIsWhatCameBeforeIff`);
- a one-character marker makes the scanner keep all text (`MarkerScanner.TailIsShortIff`);
- the initramfs writer does not check its fields (`Newc.FieldHoldsIff`).

## Model

| member | source | states |
|---|---|---|
| Protobuf.ReadVarint | packages/runtime/src/lazy-pagemap.ts:442-460 | the loop reads a base-128 number of any length as the recursive reading does, with the same truncation and overflow errors, and at most ten bytes |
| Protobuf.EncodeVarint | packages/runtime/src/lazy-pagemap.ts:462-474 | refuses exactly the negative numbers; otherwise emits the digits of the recursive form, where each step keeps 32 bits |
| Protobuf.ReadInvertsEncode | packages/runtime/src/lazy-pagemap.ts:442-474 | what is read back is the value modulo 2^32, wherever the varint stands and whatever follows: the writer is inverted exactly below 2^32 |
| Protobuf.VarintLocal | packages/runtime/src/lazy-pagemap.ts:442-460 | reading depends on the bytes of the varint only |
| Protobuf.VarintBound | packages/runtime/src/lazy-pagemap.ts:442-460 | n bytes hold less than 2^(7n) |
| Protobuf.VarintMeaning | packages/runtime/src/lazy-pagemap.ts:442-460 | a varint is the base-128 number of its bytes up to the first below 0x80; without one among the first ten it overflows, and it is truncated when the buffer ends before |
| Protobuf.EncodeIsShortest | packages/runtime/src/lazy-pagemap.ts:462-474 | the writer never needs more bytes than any accepted spelling of an equal or larger number |
| Protobuf.SkipField | packages/runtime/src/lazy-pagemap.ts:476-493 | a skipped field ends where the decoder says its value ends; unknown wire types are errors |
| Protobuf.WireTypes | packages/runtime/src/lazy-pagemap.ts:374-385 | wire type 0 is a varint, 1 eight bytes, 5 four, 2 a length and so many bytes, and the others are refused |
| Protobuf.LastValuesOfReplace | packages/runtime/src/lazy-pagemap.ts:387-440 | replacing the last value of a field number changes that number's last-one-wins value and no other |
| Protobuf.TokenLocal | packages/runtime/src/lazy-pagemap.ts:374-385 | a field decodes the same wherever its bytes are moved |
| Protobuf.DecodeLocal | packages/runtime/src/lazy-pagemap.ts:358-372 | decoding the rest of a buffer depends on that rest only |
| Protobuf.SpanHoldsValue | packages/runtime/src/lazy-pagemap.ts:387-405 | the remembered span of the flags is where the last-one-wins value was read from |
| Protobuf.OverwriteDecodes | packages/runtime/src/lazy-pagemap.ts:431-440 | splicing a new varint over the last value of a field decodes to the same fields, in the same order, with that one value replaced; unknown fields stay |
| LazyPagemap.OrLazyAddsOnlyLazyIffBelowTwo31 | packages/runtime/src/lazy-pagemap.ts:431-440 | `flags | PE_LAZY` adds the one bit and disturbs nothing else if and only if the flags are below 2^31 |
| LazyPagemap.OrLazySetsBit | packages/runtime/src/lazy-pagemap.ts:431-440 | when the signed result is not negative it has PE_LAZY and the PE_PRESENT it had |
| LazyPagemap.SummarizeIsLastOneWins | packages/runtime/src/lazy-pagemap.ts:358-405 | the left-to-right field loop computes the last-one-wins view of all fields, and fails with the first decoding error |
| LazyPagemap.EntryFields.Apply | packages/runtime/src/lazy-pagemap.ts:387-405 | one field updates the summary object as last-one-wins demands |
| LazyPagemap.ReadPagemapEntryField | packages/runtime/src/lazy-pagemap.ts:374-385 | one step of the field loop advances past exactly one field |
| LazyPagemap.ParsePagemapEntryFields | packages/runtime/src/lazy-pagemap.ts:358-372 | the loop over a message leaves the summary of all its fields |
| LazyPagemap.VaddrInLazyRange | packages/runtime/src/lazy-pagemap.ts:204-216 | true exactly when one range holds the whole span |
| LazyPagemap.EntryShouldBecomeLazy | packages/runtime/src/lazy-pagemap.ts:411-425 | true exactly for entries that are present, addressed, not empty and inside a range |
| LazyPagemap.SpanOfEligible | packages/runtime/src/lazy-pagemap.ts:411-440 | an eligible entry has a flags field on the wire, and its new value never needs more bytes than the old one took |
| LazyPagemap.RewriteEntry | packages/runtime/src/lazy-pagemap.ts:347-356 | an entry comes out as the specification of one rewritten entry |
| LazyPagemap.FrameRoundTrip | packages/runtime/src/lazy-pagemap.ts:285-330 | a framed message is read back whole at its place in any stream |
| LazyPagemap.FrameCanonical | packages/runtime/src/lazy-pagemap.ts:285-330 | framing what was read gives the very bytes it was read from |
| LazyPagemap.RewriteState.RewriteEntryMessage | packages/runtime/src/lazy-pagemap.ts:309-324 | the state counts a flagged or already lazy entry once |
| LazyPagemap.RewriteState.AppendRewrittenMessage | packages/runtime/src/lazy-pagemap.ts:298-307 | the head message is copied, every other one rewritten, and the result framed |
| LazyPagemap.RewriteState.AppendMessage | packages/runtime/src/lazy-pagemap.ts:326-330 | the output grows by the framed message |
| LazyPagemap.RewritePagemap | packages/runtime/src/lazy-pagemap.ts:243-260 | the stateful loop computes the specified result for every input and range list, errors included |
| PagemapMeaning.RewriteMarksEligible | packages/runtime/src/lazy-pagemap.ts:243-330 | the output decodes to the same messages with PE_LAZY added to exactly the eligible non-head entries; the counters count them; an unchanged result is the same bytes |
| PagemapMeaning.RewriteSucceedsIff | packages/runtime/src/lazy-pagemap.ts:243-296 | the rewrite succeeds if and only if the header is right, the framing and every entry are readable, and no entry to be marked has bit 31 in the low half of its flags |
| PagemapMeaning.EligibleByFieldNumber | packages/runtime/src/lazy-pagemap.ts:407-425 | an entry is marked if and only if field 4 has bit 2 and not bit 1 and the pages from the address in field 1 lie in one range, where field 5 counts the pages if present and else field 2 |
| PagemapMeaning.HeaderBytes | packages/runtime/src/lazy-pagemap.ts:262-272 | the header is good if and only if the first eight bytes are 19 43 56 54 25 40 08 56 |
| PagemapMeaning.RewriteIdempotent | packages/runtime/src/lazy-pagemap.ts:243-356 | a second rewrite changes no byte, flags nothing, and finds lazy what was lazy or flagged before |
| PagemapMeaning.EntryIsMarked | packages/runtime/src/lazy-pagemap.ts:347-440 | a rewritten entry differs from the original in its flags value at most, and only when eligible |
| PagemapMeaning.EntryIdempotent | packages/runtime/src/lazy-pagemap.ts:347-356 | rewriting an entry again finds it as it should be |
| PagemapMeaning.MarkedFlags | packages/runtime/src/lazy-pagemap.ts:407-440 | the marked flags are the old ones plus PE_LAZY exactly when those were below 2^31, and all other fields keep their values |
| PagemapMeaning.RewriteFromMarks | packages/runtime/src/lazy-pagemap.ts:274-324 | the same from any message onwards, with any counts so far |
| PagemapMeaning.UnchangedCopies | packages/runtime/src/lazy-pagemap.ts:243-260 | with nothing flagged the rest of the input is copied byte for byte |
| MmImage.LazyRangesMeaning | packages/runtime/src/lazy-pagemap.ts:122-169 | an mm image is accepted exactly when its header and areas are readable, and yields in order the ranges of the areas that are anonymous-private and not vsyscall, vdso or vvar |
| MmImage.RangeByFieldNumber | packages/runtime/src/lazy-pagemap.ts:140-203 | an area contributes the range of fields 1 and 2 if and only if field 7 has bit 4 and none of bits 7, 8 and 11 |
| MmImage.HeaderBytes | packages/runtime/src/lazy-pagemap.ts:122-139 | the header is good if and only if the first eight bytes are 19 43 56 54 20 28 49 57 and as many bytes follow as the length after them says |
| MmImage.RangesAreLazyAreas | packages/runtime/src/lazy-pagemap.ts:122-169 | the scan from any field on lists exactly those areas |
| MmImage.ParseLazyRangesFromMm | packages/runtime/src/lazy-pagemap.ts:122-169 | the loop computes the specified list or the same error |
| MmImage.ReadMmField | packages/runtime/src/lazy-pagemap.ts:122-169 | one round of that loop: what a field contributes and where the next starts |
| MmImage.ParseVmaEntry | packages/runtime/src/lazy-pagemap.ts:177-202 | an area is parsed to its last-one-wins start, end and status |
| MmImage.ReadVmaField | packages/runtime/src/lazy-pagemap.ts:177-202 | one step of that loop |
| ExecFrames.RunIsFeedToExit | packages/runtime/src/exec.ts:429-501 | the chunk-wise parser does what a byte-at-a-time machine does up to the first exit frame, from every state |
| ExecFrames.IngestAllIsFeedAll | packages/runtime/src/exec.ts:396-448 | on a stream with no header after the exit frame, feeding chunks is feeding bytes |
| ExecFrames.ChunkIndependentIff | packages/runtime/src/exec.ts:396-448 | how a stream is cut changes neither stdout, stderr, exit code nor failure if and only if, after the first exit frame, no payload byte arrives, no bad header is completed and every exit frame repeats the code |
| ExecFrames.SameOutcome | packages/runtime/src/exec.ts:396-448 | on such streams any chunks deliver what one chunk delivers |
| ExecFrames.QuietIffSettled | packages/runtime/src/exec.ts:429-448 | no header line is completed after the first exit frame of a stream exactly when parsing it in one go leaves nothing parseable |
| ExecFrames.TellingCut | packages/runtime/src/exec.ts:441-448 | for every other stream, this cut delivers something else than one chunk does |
| ExecProtocol.FramesAfterExitDependOnTheCut | packages/runtime/src/exec.ts:441-448 | frames after an exit frame are lost in one chunk and delivered when the chunks part at the exit frame |
| ExecProtocol.OutputAfterExit | packages/runtime/src/exec.ts:441-448 | a stream of seven bytes whose stdout depends on the cut |
| ExecProtocol.HeaderParses | packages/runtime/src/exec.ts:503-521 | both header parsers read back the headers the agent writes, for all lengths and exit codes a double holds |
| ExecProtocol.ExecStreamIsDemultiplexed | packages/runtime/src/exec.ts:396-521 | for any chunking of encoded frames and an exit frame, stdout, stderr and exit code are the O payloads, the E payloads and the X code, in order |
| ExecProtocol.PtyStreamIsDemultiplexed | packages/runtime/src/exec.ts:647-725 | the same for the PTY parser and its O frames |
| ExecProtocol.StreamIsDemultiplexed | packages/runtime/src/exec.ts:396-501 | the same for any header parser that understands the frames |
| ExecProtocol.BadHeaderEndsStream | packages/runtime/src/exec.ts:396-521 | a header that is none ends the stream for any chunking: the payloads before it are delivered, nothing after, and the call fails |
| ExecProtocol.HeaderMeaning | packages/runtime/src/exec.ts:503-521 | for every header line: X is an exit with its number, 0 without one; O and E need a finite length that is not negative; all else is refused, E by the PTY parser too |
| ExecProtocol.HighBitsDoNotCount | packages/runtime/src/exec.ts:498 | the high bits of a header line's bytes do not count |
| ExecProtocol.ExecParser.OnData | packages/runtime/src/exec.ts:396-404 | the socket handler takes one chunk as the machine does |
| ExecProtocol.ExecParser.Step | packages/runtime/src/exec.ts:429-448 | the loop of the parser runs the machine as far as the buffer goes, stopping after an exit frame |
| ExecProtocol.ExecParser.ConsumeExecPayload | packages/runtime/src/exec.ts:450-461 | takes the smaller of what is awaited and what is buffered, and delivers it |
| ExecProtocol.ExecParser.DeliverExecPayload | packages/runtime/src/exec.ts:463-483 | a payload goes to the sink of its tag and no other |
| ExecProtocol.ExecParser.ReadExecHeader | packages/runtime/src/exec.ts:493-501 | takes the first line off the buffer, or nothing without a newline |
| ExecProtocol.ExecParser.Finish | packages/runtime/src/exec.ts:375-394 | what the caller gets when the socket closes: an error, or the exit code with the output not given to a callback |
| ExecProtocol.PtyParser.IngestPtyOutput | packages/runtime/src/exec.ts:647-650 | one chunk, as the machine takes it |
| ExecProtocol.PtyParser.ConsumeNextPtyFrame | packages/runtime/src/exec.ts:652-697 | one step of the PTY loop moves the machine without changing where it ends |
| WorkspacePolling.OnlySelectedPublished | apps/machinen-desktop-services/src/workspace-polling-service.ts:58-134 | over every interleaving of events, ticks, probe results, starts and stops, a result is published only for the workspace selected at that moment |
| WorkspacePolling.NextConsistent | apps/machinen-desktop-services/src/workspace-polling-service.ts:38-134 | every step keeps: a refresh in flight whose version is current holds the selected workspace |
| WorkspacePolling.SingleFlightWithoutStop | apps/machinen-desktop-services/src/workspace-polling-service.ts:75-134 | in runs without stop at most one refresh is in flight, a stale one is aborted with a successor queued, and no selected workspace goes unprobed |
| WorkspacePolling.StopKeepsSingleFlightIffIdle | apps/machinen-desktop-services/src/workspace-polling-service.ts:46-56 | after a stop in any reachable state, all later runs without stops keep to one refresh at a time if and only if none was in flight when it was called |
| WorkspacePolling.SingleFlightWithIdleStops | apps/machinen-desktop-services/src/workspace-polling-service.ts:46-134 | runs whose stops all come while no refresh is in flight have one refresh at a time in flight throughout |
| WorkspacePolling.ReconnectOverlaps | apps/machinen-desktop-services/src/workspace-polling-service.ts:38-56 | connect, stop and connect again from the start: two refreshes in flight |
| WorkspacePolling.Overlap | apps/machinen-desktop-services/src/workspace-polling-service.ts:46-56 | otherwise this run has two in flight |
| WorkspacePolling.DesktopState.Load | apps/machinen-desktop-services/src/desktop-state.ts:23-37 | workspaces, tiles, terminals and ui are what the snapshot says, later values of an id winning |
| WorkspacePolling.DesktopState.HandleEvent | apps/machinen-desktop-services/src/desktop-state-events.ts:16-116 | workspaces, tiles, terminals and ui after an event, ill-formed data included |
| WorkspacePolling.WorkspacePollingService.Start | apps/machinen-desktop-services/src/workspace-polling-service.ts:38-44 | start is the state machine's start |
| WorkspacePolling.WorkspacePollingService.Stop | apps/machinen-desktop-services/src/workspace-polling-service.ts:46-56 | stop is the state machine's stop |
| WorkspacePolling.WorkspacePollingService.HandleEvent | apps/machinen-desktop-services/src/workspace-polling-service.ts:58-66 | an event changes the context exactly when it is about the ui or the selected workspace |
| WorkspacePolling.WorkspacePollingService.OnEvent | apps/machinen-desktop-services/src/index.ts:44-55 | the desktop state takes an event in before the service looks at it |
| WorkspacePolling.WorkspacePollingService.ContextChanged | apps/machinen-desktop-services/src/workspace-polling-service.ts:68-73 | a change of context aborts, counts up and asks for a refresh |
| WorkspacePolling.WorkspacePollingService.QueueRefresh | apps/machinen-desktop-services/src/workspace-polling-service.ts:75-81 | a refresh begins unless one is running, in which case it is queued |
| WorkspacePolling.WorkspacePollingService.Refresh | apps/machinen-desktop-services/src/workspace-polling-service.ts:83-95 | a refresh up to its first await |
| WorkspacePolling.WorkspacePollingService.OnProbeResolved | apps/machinen-desktop-services/src/workspace-polling-service.ts:104-113 | a probe that resolves does what the state machine's step does; what that is for over a run, PollingRuns.ResolvedIsPublishedIff says |
| WorkspacePolling.WorkspacePollingService.FinishRefresh | apps/machinen-desktop-services/src/workspace-polling-service.ts:126-134 | the end of a refresh starts the queued one |
| PollingRuns.ResolvedIsPublishedIff | apps/machinen-desktop-services/src/workspace-polling-service.ts:58-113 | in any run, the probe of a refresh publishes, once, the workspace that was selected when the refresh began if and only if no connection, no stop and no event about the ui or the selected workspace came in between; otherwise nothing is published |
| PollingRuns.OnlyProbesPublish | apps/machinen-desktop-services/src/workspace-polling-service.ts:104-113 | no other step publishes |
| PollingRuns.ProbesOnce | apps/machinen-desktop-services/src/workspace-polling-service.ts:83-113 | a refresh that has stopped probing never probes again, so it publishes once at most |
| PollingRuns.FirstResultIsPublished | apps/machinen-desktop-services/src/workspace-polling-service.ts:38-113 | connecting with one workspace selected and answering its probe publishes that workspace once |
| PollingRuns.BeginsIff | apps/machinen-desktop-services/src/workspace-polling-service.ts:68-95 | a refresh begins if and only if a workspace is selected and one is asked for while none is running, or one ends with another queued |
| PollingRuns.AskedIsQueued | apps/machinen-desktop-services/src/workspace-polling-service.ts:75-81 | a connection, an event about the selection or a tick while a refresh is running queues another and starts none |
| PollingRuns.QueuedRefreshBegins | apps/machinen-desktop-services/src/workspace-polling-service.ts:83-134 | a refresh can always come to its end, and one queued behind it then begins, for the workspace selected and in the current context |
| PollingRuns.TimerRunsIffConnected | apps/machinen-desktop-services/src/workspace-polling-service.ts:38-56 | over any run the timer is on if and only if the last start or stop was a start |
| PollingRuns.LastWordIsHeld | apps/machinen-desktop-services/src/desktop-state-events.ts:16-116 | over any run of snapshots and events, each workspace, tile and terminal, the level and the selection are what the last event or snapshot about them said |
| PollingRuns.ByIdIsLast | apps/machinen-desktop-services/src/desktop-state.ts:23-37 | of a snapshot's list, the last value with an id is the one kept |
| PollingRuns.SelectedIff | apps/machinen-desktop-services/src/desktop-state.ts:43-47 | a workspace is selected if and only if the ui names it by an id that is not empty and it is there |
| Registry.RegistryIsConsistent | packages/runtime/src/registry.ts:235-304 | over every run, each named entry's pin holds exactly its pid, no two entries share a name, and no pin lies below another |
| Registry.ClaimSparesLive | packages/runtime/src/registry.ts:512-609 | claiming a name disturbs no live entry and no live entry's pin, and never takes a name held live |
| Registry.RegisteredKeepsInv | packages/runtime/src/registry.ts:235-249 | booting keeps the invariant, even with a pid used before |
| Registry.RemovedKeepsInv | packages/runtime/src/registry.ts:272-304 | removing an entry keeps it, and touches no other entry |
| Registry.ListedKeepsInv | packages/runtime/src/registry.ts:402-499 | listing keeps it |
| Registry.ListLeavesLiveOnly | packages/runtime/src/registry.ts:402-499 | after listing, exactly the live entries are left, exactly the pins with a live owner, and every directory leads to a pin |
| Registry.StaleNameCanBeClaimed | packages/runtime/src/registry.ts:512-609 | a pinned name can be claimed within the two attempts if and only if its pin is stale |
| Registry.ClaimedIff | packages/runtime/src/registry.ts:512-609 | for every tree of names and every name: claiming it succeeds if and only if no pin lies above it, no pin and no directory below it, and its owner, if any, is not live; a pin further up than its parent, and nothing else, makes it throw |
| Registry.BootTakesEffectIff | packages/runtime/src/registry.ts:235-249 | a boot with a claimable name or none leaves its entry and its pin, takes away the entry a stale pin belonged to and nothing else, and makes the parents of the name directories; any other boot changes nothing |
| Registry.RemovedLeaves | packages/runtime/src/registry.ts:272-304 | removing a named entry takes it, its pin and exactly those directories above the name that led to nothing else |
| Registry.WrittenIsPinned | packages/runtime/src/registry.ts:235-249 | a written entry is there under its pid, its name pinned to it below directories |
| Registry.FoundByPidLeavesLive | packages/runtime/src/registry.ts:615-630 | looking up a pid leaves a live entry alone and nothing of a dead one |
| Registry.BootLeavesNoOrphanIff | packages/runtime/src/registry.ts:235-249 | a boot leaves no pin without an entry if and only if it does not overwrite an entry of another name |
| Registry.PinsBelongToEntriesIff | packages/runtime/src/registry.ts:235-304 | over a run every pin belongs to the entry it points to, at every moment, if and only if no boot overwrites an entry of another name |
| Registry.FindByNameKeepsInvIff | packages/runtime/src/registry.ts:631-649 | looking a name up keeps the invariant if and only if it does not drop the pin of an entry still recorded under it |
| Registry.LookupCanCostTheNextOwnerItsPin | packages/runtime/src/registry.ts:631-649 | a run in which that branch later costs a live VM its pin |
| Registry.PinsArePrefixFree | packages/runtime/src/registry.ts:529-540 | a pin has no pin above it |
| Registry.VmRegistry.ClaimName | packages/runtime/src/registry.ts:512-540 | a name is claimed if and only if no pin lies above it, no pin and no directory below it, and no live entry owns it; the tables are left as specified |
| Registry.VmRegistry.ClaimPinOnce | packages/runtime/src/registry.ts:542-609 | one attempt: create, reap a stale pin or empty directory, or refuse |
| Registry.VmRegistry.WriteEntry | packages/runtime/src/registry.ts:235-249 | entry and pin are in the tables |
| Registry.VmRegistry.RemoveEntry | packages/runtime/src/registry.ts:272-291 | entry, pin and empty parents are gone |
| Registry.VmRegistry.PruneEmptyParents | packages/runtime/src/registry.ts:293-304 | directories go upwards until one is not empty |
| Registry.VmRegistry.Register | packages/runtime/src/registry.ts:235-249 | succeeds if and only if the entry has no name or a claimable one; then entry and pin are there, else nothing has changed; keeps the invariant and all other live entries |
| Registry.VmRegistry.FindEntryByName | packages/runtime/src/registry.ts:631-649 | returns an entry exactly when the name's pin is not stale |
| Registry.VmRegistry.FindEntryByPid | packages/runtime/src/registry.ts:615-630 | returns a live entry, and removes a dead one |
| Registry.VmRegistry.ListEntries | packages/runtime/src/registry.ts:402-441 | returns each live entry once, and the tables are left as specified |
| Registry.VmRegistry.PruneStaleNamePins | packages/runtime/src/registry.ts:448-475 | exactly the pins with a live owner stay |
| Registry.VmRegistry.SweepEmptyPinDirs | packages/runtime/src/registry.ts:488-499 | below a directory exactly those with a pin under them stay |
| LinkedMounts.CoversIsCommonTail | packages/cli/src/run-access.ts:268-288 | a mount covers a path if and only if host and guest path extend the mount's by the same tail |
| LinkedMounts.CoversTransitive | packages/cli/src/run-access.ts:268-288 | covering is transitive |
| LinkedMounts.UncoveredIndependent | packages/cli/src/run-access.ts:250-266 | replacing what a new mount covers leaves no mount that another, or the root, covers |
| LinkedMounts.ReplacedReachable | packages/cli/src/run-access.ts:250-266 | and whatever was covered stays covered |
| LinkedMounts.AddKeepsFresh | packages/cli/src/run-access.ts:144-152 | a mount that is not covered has a scan key not seen before, so no mount is skipped or scanned twice |
| LinkedMounts.Discovery.DropCovered | packages/cli/src/run-access.ts:259-263 | the backward splices remove exactly the covered mounts and keep the order |
| LinkedMounts.Discovery.AddLinkedMount | packages/cli/src/run-access.ts:250-266 | a candidate is refused exactly when it is covered, and covered afterwards either way |
| LinkedMounts.Discovery.OnLink | packages/cli/src/run-access.ts:153-164 | a dead link is reported, a covered target left, and otherwise the mount made for it added |
| LinkedMounts.Discovery.ScanDirectory | packages/cli/src/run-access.ts:180-213 | every link below the directory has been handled, or the entry budget is exceeded; terminates on any tree |
| LinkedMounts.Discovery.Discover | packages/cli/src/run-access.ts:134-170 | terminates; every mount ever queued has been scanned once and is covered in the end, or the entries of those scanned exceed the budget |
| LinkedMounts.DiscoverLinkedMounts | packages/cli/src/run-access.ts:134-170 | the plan is closed: each link under the root or a kept mount is reported, or its target or a mount that shows it is covered; no kept mount is covered by another or the root; each kept mount is found from the root through a link to a target outside the root, has the root's mode, and puts the target where the guest looks for it, a file one name below the mount and a directory at it; a plan results exactly when the mounts searched have at most 250000 entries |
| LinkedMounts.SoundIsComplete | packages/cli/src/run-access.ts:134-170 | what the search maintains amounts to that |
| LinkedMounts.KeptIsFound | packages/cli/src/run-access.ts:153-164 | each kept mount comes from a link to a target that the root does not cover, and shows that target to the guest |
| LinkedMounts.BudgetCountsEntries | packages/cli/src/run-access.ts:180-213 | the budget counts every entry below a directory once, and stops one above the limit |
| LinkedMounts.TotalCountsEntries | packages/cli/src/run-access.ts:134-213 | so the search is given up if and only if the mounts searched have more entries than the limit together |
| LinkTargets.MountFor | packages/cli/src/run-access.ts:244-248 | a directory is mounted itself, a file through its directory, on the host and in the guest, with the mode asked for and its real path |
| LinkTargets.LinkIsShown | packages/cli/src/run-access.ts:222-248 | whatever a link in a readable directory leads to, the mount made for it has it at the path where the guest looks: at the mount for a directory, one name below for a file |
| LinkTargets.ShowsIff | packages/cli/src/run-access.ts:244-248 | that is so for a file if and only if it has the same name on the host and in the guest |
| LinkTargets.WalkIsUpThenDown | packages/cli/src/run-access.ts:227-230 | from any base a link text leads as far up as it can and then down the same names |
| LinkTargets.WalkIsNormal | packages/cli/src/run-access.ts:227-230 | names are appended, and empty parts, `.` and a name followed by `..` can be left out anywhere |
| LinkTargets.PartsMakeUpText | packages/cli/src/run-access.ts:227-230 | the parts of a link text have no slash, and joined by slashes they are the text |
| LinkTargets.RelativeTargetIsMapped | packages/cli/src/run-access.ts:222-242 | a relative target that stays below a mount lies at the same place below it on the host and in the guest |
| LinkTargets.AbsoluteTargetIsShared | packages/cli/src/run-access.ts:222-242 | an absolute target has the same path on both sides |
| LinkTargets.CanonicalIsReal | packages/cli/src/run-access.ts:298-314 | the canonical path is the real path of the longest part that exists, and the rest behind it |
| LinkTargets.DirectoryMountIsReal | packages/cli/src/run-access.ts:222-248 | the mount made for a directory covers it |
| GvproxyRuns.EveryRunIsSafe | packages/runtime/src/gvproxy.ts:184-286 | for any number of processes, failures and crashes: one process at most holds the lock, the binary is renamed into place once at most, a path is returned only when the whole binary is there, and each process that is done with success has been given it |
| GvproxyRuns.SuccessIsHanded | packages/runtime/src/gvproxy.ts:203-258 | the very step with which a process succeeds gives it the path of the whole binary |
| GvproxyRuns.StepReturns | packages/runtime/src/gvproxy.ts:184-286 | a step returns a path to the process that takes it or to none |
| GvproxyRuns.LookingReturnsIff | packages/runtime/src/gvproxy.ts:160-274 | a process that looks for the binary, at first, after a refused lock or while it waits, gets the path if and only if the binary is there |
| GvproxyRuns.WaiterCanReturnIff | packages/runtime/src/gvproxy.ts:196-286 | a waiting process can still be given the path, by its own steps and those of the lock's holder alone, if and only if the binary is there or the lock is not orphaned |
| GvproxyRuns.GivesUpIff | packages/runtime/src/gvproxy.ts:184-286 | a process gives up exactly when the directory cannot be made, the wait times out or its own install has failed; when the lock file cannot be created it looks for the binary |
| GvproxyRuns.TemporaryFiles | packages/runtime/src/gvproxy.ts:222-247 | a crash while writing leaves a partial file beside the path and not at it; a rename leaves none |
| GvproxyLock.NextKeepsFiles | packages/runtime/src/gvproxy.ts:184-258 | each step keeps the invariant behind it |
| GvproxyRuns.CanInstallIff | packages/runtime/src/gvproxy.ts:184-286 | from any state the binary can still come to be installed if and only if it is there or the lock is not orphaned |
| GvproxyRuns.FirstHolderCrashes | packages/runtime/src/gvproxy.ts:184-258 | a run from an empty cache that ends so: the first process crashes with the lock |
| GvproxyRuns.OrphanedBlocksForever | packages/runtime/src/gvproxy.ts:265-286 | with an orphaned lock and no binary, no continuation installs it or returns a path |
| GvproxyRuns.OrphanedByStepIff | packages/runtime/src/gvproxy.ts:248-258 | the lock becomes orphaned exactly by a crash of its holder or a failed unlink |
| GvproxyRuns.HolderCanInstall | packages/runtime/src/gvproxy.ts:209-247 | a process that holds the lock and has found no binary can finish |
| Icmp.IcmpChecksum | packages/microvm/assets/move-capture.c:461-471 | the loops compute the checksum without leaving 32 bits, and the folding ends |
| Icmp.ChecksumIsOnesComplement | packages/microvm/assets/move-capture.c:461-471 | deferring the carries computes the complement of the one's complement sum of section 1 of RFC 1071, odd lengths included |
| Icmp.FoldedIsResidue | packages/microvm/assets/move-capture.c:469 | folding keeps the sum modulo 65535 and gives 0 only for 0 |
| Icmp.AccumulatorFitsIff | packages/microvm/assets/move-capture.c:462-468 | no buffer of n bytes overflows the accumulator if and only if n is at most 131074; the caller allows 65535 |
| Icmp.ChecksumVerifies | packages/microvm/assets/move-capture.c:481-487 | storing the checksum in the zeroed field makes the checksum of the whole 0 |
| Icmp.PatchedIsValid | packages/microvm/assets/move-capture.c:473-493 | after the patch the checksum over the packet is 0, the sequence number is ntransmitted + 1 modulo 65536, and only bytes 2, 3, 6 and 7 differ |
| Icmp.PatchedIsIdempotent | packages/microvm/assets/move-capture.c:473-493 | patching again with the same count changes nothing |
| Icmp.PatchPacket | packages/microvm/assets/move-capture.c:480-487 | the edit in place is that patch |
| Icmp.PatchIcmpSendBuffer | packages/microvm/assets/move-capture.c:473-493 | succeeds exactly for a mapped echo packet of 8 to 65535 bytes written whole; refused packets leave memory unchanged; a short write leaves a prefix of the patch |
| Quiet.RingBuffer.Push | packages/cli/src/quiet.ts:95-105 | after a push the kept chunks are those trimming the whole history would keep, and the size is exact and at most the larger of the capacity and the last chunk |
| Quiet.TrimmedIsLongestSuffix | packages/cli/src/quiet.ts:95-105 | they are the longest suffix of whole chunks that fits, or the last chunk |
| Quiet.TrimmedPush | packages/cli/src/quiet.ts:95-105 | trimming at each push is trimming once |
| Quiet.RingBuffer.Contents | packages/cli/src/quiet.ts:116-118 | the content is the concatenation of the last chunks, of the recorded size |
| Quiet.RingBuffer.IsEmpty | packages/cli/src/quiet.ts:108-110 | empty exactly when nothing has been pushed |
| Quiet.NothingIsLost | packages/cli/src/quiet.ts:196-283 | under any chunking, prompts and flushes: text buffered plus residual is the input; text shown is its end, begins with a line that is neither noise nor blank, and only noise and blank pieces precede it; ready means no residual |
| Quiet.PushedIsFedIff | packages/cli/src/quiet.ts:202-229 | pushing a chunk is feeding its characters one by one if and only if it is not taken for a prompt |
| Quiet.ChunksDoNotMatter | packages/cli/src/quiet.ts:202-229 | so without prompts the outcome depends on the text alone |
| Quiet.ShownFromFirstSuchLine | packages/cli/src/quiet.ts:196-283 | without prompts, the output is the input from the first line on that is neither noise nor blank, and the lines before it are kept for the buffer alone |
| Quiet.NothingShownYet | packages/cli/src/quiet.ts:196-283 | while there is no such line nothing is shown, and an unfinished line is held back |
| Quiet.SplitLinesTerminated | packages/cli/src/quiet.ts:285-293 | the split lines, each with its newline, make up the text |
| Quiet.NoiseFilter.Push | packages/cli/src/quiet.ts:202-229 | the object takes a chunk as specified, and the buffer receives exactly the text sent |
| Quiet.NoiseFilter.Flush | packages/cli/src/quiet.ts:236-243 | the residual is routed and gone |
| Quiet.NoiseFilter.RouteLine | packages/cli/src/quiet.ts:245-273 | a line is hidden or shown; the first one shown opens the gate and calls onReady, once |
| MarkerScanner.MarkerScanner.Observe | examples/firecracker-nested/run.ts:363-381 | the scanner has seen the marker exactly when the concatenation of all chunks includes it |
| MarkerScanner.IncludesInTail | examples/firecracker-nested/run.ts:377-378 | an occurrence across chunks lies within the kept tail and the new chunk |
| MarkerScanner.TailIsShortIff | examples/firecracker-nested/run.ts:379 | the kept tail is always shorter than the marker if and only if the marker has two characters or more |
| TerminalOutput.OutputStore.AppendOutput | packages/desktop-sdk/src/client.ts:498-512 | the window is the last 256 KiB of all output, between its cursors |
| TerminalOutput.OutputStore.ReadTerminalOutput | packages/desktop-sdk/src/client.ts:183-201 | a read from any cursor, or none, gives what the unbounded log would, cut at the start of the window |
| TerminalOutput.TruncatedIff | packages/desktop-sdk/src/client.ts:183-201 | a reading is marked truncated exactly when bytes after the cursor are missing, which is when more than 256 KiB have come since |
| TerminalOutput.WindowIsSuffix | packages/desktop-sdk/src/client.ts:498-512 | the window is the end of the log, 256 KiB at most, and its cursors say where it stands |
| TerminalOutput.ReadingStands | packages/desktop-sdk/src/client.ts:183-201 | a reading starts at the cursor asked for, or at the window when that is later, and ends at the end of the log |
| TerminalOutput.ReadsReassembleIff | packages/desktop-sdk/src/client.ts:183-201 | consecutive reads reassemble the log if and only if none was truncated |
| DesktopClient.ChunksDoNotMatter | packages/desktop-sdk/src/client.ts:431-461 | however the line stream is cut, the client ends with the same answers, output, pending requests and connection |
| DesktopClient.LogIsStreamOutput | packages/desktop-sdk/src/client.ts:431-512 | a terminal's log after any chunks is the concatenation of the output the stream carries for it, up to the first line that is not JSON |
| DesktopClient.EveryRequestSettlesOnce | packages/desktop-sdk/src/client.ts:399-475 | over every run of requests, failed writes, chunks, disconnects and reconnects, each request is pending or settled, is settled once, and none stays pending without a connection |
| DesktopClient.EveryRequestOfAClientSettlesOnce | packages/desktop-sdk/src/client.ts:399-475 | so it is for a client from its first connection on |
| DesktopAnswers.RequestEndsAsTheStreamSays | packages/desktop-sdk/src/client.ts:431-475 | however the stream is cut, a pending request ends with the ok of the first answer to it in the text; it fails if a line that is not JSON comes first, and stays pending if neither comes |
| DesktopAnswers.EveryRequestEndsAsItShould | packages/desktop-sdk/src/client.ts:399-475 | in any run from the first connection on, a request made while connected ends as the text received says, a lost connection and a failed write of its own counting as failures, whichever comes first |
| DesktopClient.StepLogs | packages/desktop-sdk/src/client.ts:431-512 | in any step a terminal's log grows by the output that whole lines carry for it and by nothing else |
| DesktopClient.RunIsFed | packages/desktop-sdk/src/client.ts:431-461 | the loop over buffered lines does what the characters do one by one |
| DesktopClient.MachinenClient.Receive | packages/desktop-sdk/src/client.ts:431-461 | one chunk, as specified, into the store of bounded windows |
| DesktopClient.MachinenClient.HandleLine | packages/desktop-sdk/src/client.ts:440-461 | one line does what the specification of a line says; how it settles requests over a stream, DesktopAnswers.RequestEndsAsTheStreamSays says |
| DesktopClient.MachinenClient.HandleDisconnect | packages/desktop-sdk/src/client.ts:555-577 | rejects whatever is pending |
| DesktopClient.MachinenClient.SendRequest | packages/desktop-sdk/src/client.ts:399-429 | a numbered pending request, or none without a connection |
| Multiplex.SandboxEntry.Record | packages/runtime/src/multiplex.ts:124-137 | the scrollback is the last bytes of the whole output, as many as fit |
| Multiplex.LastBytesOfLastBytes | packages/runtime/src/multiplex.ts:124-129 | cutting at each chunk is cutting once |
| Multiplex.LastBytesIsSuffix | packages/runtime/src/multiplex.ts:124-129 | what is kept is the end of the output, as long as the capacity allows |
| Multiplex.Attachment.FindDetachSequence | packages/runtime/src/multiplex.ts:350-369 | finds the first second Ctrl-] of the stream since attaching, also across chunks |
| Multiplex.Attachment.IngestAttached | packages/runtime/src/multiplex.ts:337-348 | the supervisor detaches exactly when the stream contains two consecutive Ctrl-], and until then everything typed has been sent |
| Multiplex.DetachIsWhereThePairIs | packages/runtime/src/multiplex.ts:337-369 | the place of detaching is the first pair of the stream, however it is cut |
| Multiplex.SentIsWhatCameBeforeIff | packages/runtime/src/multiplex.ts:345 | the sandbox was sent exactly what came before the pair if and only if one chunk holds the whole pair |
| Newc.FieldHoldsIff | packages/runtime/src/mkinitramfs.ts:118-120 | a header field is eight digits that read back as the value if and only if the value is an unsigned 32-bit number |
| Newc.FieldsRoundTrip | packages/runtime/src/mkinitramfs.ts:96-120 | the thirteen fields read back |
| Newc.WrittenParts | packages/runtime/src/mkinitramfs.ts:73-94 | a 110-byte header, the name with its NUL, and the data stand at aligned places of an entry |
| Newc.HeaderOffsets | packages/runtime/src/mkinitramfs.ts:96-116 | the thirteen header fields by their offsets: inode at 6, mode at 14, uid at 22, gid at 30, links at 38, time at 46, size at 54, device at 78 and 86, name length at 94 |
| Newc.PaddingIsZero | packages/runtime/src/mkinitramfs.ts:73-94 | what is between the parts is zero |
| Newc.EntryRoundTrip | packages/runtime/src/mkinitramfs.ts:73-130 | the reader finds name, numbers and data of an entry at any aligned place, and the next place is aligned again |
| Newc.ArchiveRoundTrip | packages/runtime/src/mkinitramfs.ts:73-130 | from a concatenation of entries the reader recovers, in order, all before the first trailer |
| Newc.ClosedArchiveReadsBackIff | packages/runtime/src/mkinitramfs.ts:424-458 | a closed archive reads back as its entries if and only if none is named like the trailer |
| TinyInitramfs.TinyBundleEntries | packages/runtime/src/mkinitramfs.ts:424-458 | the parts pushed are the entries of the bundle, in order, and the trailer |
| TinyInitramfs.PackTinyBundle | packages/runtime/src/mkinitramfs.ts:403-422 | the image reads back as the files of the bundle |
| TinyInitramfs.BundleHolds | packages/runtime/src/mkinitramfs.ts:424-458 | the image holds each file of the bundle under its path, with its mode and content, every directory before what lies in it, and nothing else |
| FirecrackerArchive.AppendNewcEntry | examples/firecracker-nested/run.ts:259-294 | an entry is rejected with the first failed check, or its five chunks are the specified entry |
| FirecrackerArchive.MakeNewcArchive | examples/firecracker-nested/run.ts:249-257 | the archive is written exactly when all checks pass, with inodes counted from 1 |
| FirecrackerArchive.ArchiveReadsBackIff | examples/firecracker-nested/run.ts:249-294 | it then reads back as the files if and only if none is named like the trailer |
| FirecrackerArchive.ArchiveHoldsFiles | examples/firecracker-nested/run.ts:249-294 | the entries read back carry the names, modes and data of the files, and are numbered from 1 |
| FirecrackerArchive.WrittenIff | examples/firecracker-nested/run.ts:249-265 | an archive is written if and only if every name is not empty and free of slashes and NULs and every number is an unsigned 32-bit one |
| ProcessTree.ProcessTree | apps/machinen-desktop-services/src/services/metrics-status.ts:139-152 | terminates and returns, in order, exactly the rows reachable from a positive root, with cycles and duplicates |
| ProcessTree.Pass | apps/machinen-desktop-services/src/services/metrics-status.ts:143-150 | a pass adds reachable processes only, and changes nothing only when the set is closed |
| ProcessTree.ClosedHoldsReachable | apps/machinen-desktop-services/src/services/metrics-status.ts:139-152 | a closed set with the roots holds everything reachable |
| PhaseLine.PrintedLineReadsBackIff | scripts/bench.ts:387-421 | a printed line is read back, after a prefix and before blanks, if and only if its kind is not empty and its total not negative; otherwise it is not taken for a phase line |
| PhaseLine.PhaseTimer.Format | packages/runtime/src/phase-timer.ts:79-86 | the line lists kind, total and the durations in insertion order |
| PhaseLine.PhaseTimer.End | packages/runtime/src/phase-timer.ts:42-51 | records the time since the start, once, and keeps names distinct |
| PhaseLine.PhaseTimer.Mark | packages/runtime/src/phase-timer.ts:58-63 | records a duration measured elsewhere, or nothing |
| PhaseLine.ReadPhaseLine | scripts/bench.ts:396-421 | the token loop computes the specified reading |
| PhaseLine.TakesAllIff | scripts/bench.ts:402-406 | a token without `=` spoils the line, and nothing else does |
| PhaseLine.LastTokenWins | scripts/bench.ts:402-419 | kind, total and each phase are what the last token with that key says; a phase without a number is passed over |
| PhaseLine.SplitJoin | scripts/bench.ts:402 | joined tokens split into themselves |
| PhaseLine.TakePhases | scripts/bench.ts:402-419 | the tokens of distinct phases rebuild the ordered map |
| PhaseLine.SetKeepsDistinct | packages/runtime/src/phase-timer.ts:42-63 | an ordered map keeps its names distinct |
| PhaseLine.SetIsInPlace | packages/runtime/src/phase-timer.ts:42-63 | setting a name keeps all other durations and every place, and appends a new name |
| JsNumber.ParseIntInvertsDecimal | scripts/bench.ts:411-417 | parseInt undoes the printing of every safe integer, whatever non-digit follows |
| JsNumber.ParseIntReads | scripts/bench.ts:411-417 | parseInt reads blanks, at most one sign and digits, whatever other character follows, and without a digit gives no number |
| JsNumber.ToNumberIsNearest | packages/runtime/src/lazy-pagemap.ts:387-405 | Number of a bigint is the nearest double, of two equally near ones the even one |

## Left out

- LazyPagemap: the directory walk of markPagemapsLazy and its per-process totals, which only call the functions modelled here.
- LazyPagemap: skip lengths beyond 2^53, where the source adds doubles and rounds; positions here are exact integers.
- ExecProtocol: decoding of the collected bytes as UTF-8, sockets, timeouts, retries and requests; the parsers' bytes are modelled, not their text.
- WorkspacePolling: the opener and context command services, and the once-only reporting of errors; none touches the refresh.
- WorkspacePolling: what a probe returns; only for which workspace it is published.
- Registry.VmRegistry.ClaimName: one process claims at a time; interleaved claims of the same stale name are not modelled.
- Registry: FindByName is not a step of the runs, because its stale branch breaks the invariant; its own lemma says when.
- Registry: the garbage collector's retry and the fields of an entry other than pid, name and start time; validatePid is the set of live processes.
- LinkedMounts.DiscoverLinkedMounts: does not sort the plan's mounts and unresolved links, which the source does last and which changes neither set; the limit on live mounts is applied to the plan later.
- LinkedMounts: the file system does not change during a scan, except that a link may be unreadable.
- LinkTargets: realpath and stat are functions of the file system, and what has no real path does not exist; a trailing slash of an absolute link text, which the source keeps in the guest path, is not part of a path.
- GvproxyLock: the source's async functions are cut into one step per file access or await, so that steps of several processes interleave; there is no object to update in place.
- GvproxyLock: resolving an already installed binary through the environment, the VMM's directory or PATH; the download's content is whole or partial.
- Icmp: the attributes of the captured process other than the packet (ptrace, layout files, the counters of ping); ntransmitted is an unbounded integer, so the overflow of its type at the largest long is not modelled.
- Quiet: which lines are noise, blank or a prompt, what the onReady callback does, and decoding of chunks as UTF-8; chunks are text, and the buffer receives any encoding of it.
- MarkerScanner, TerminalOutput: decoding of chunks that split a character.
- DesktopClient: JSON, base64, the listeners, terminal states and waits; a line's message is any function of the line, ids are the numbers the client gave out, and opening the socket is one step.
- Multiplex: commands typed while detached, raw mode, window sizes and subscribers; input left over after a detach is returned, not interpreted.
- Newc: names are bytes, already encoded; the reader follows the initramfs buffer format for the "070701" variant.
- TinyInitramfs: reading the files of the bundle and patching its configuration.
- FirecrackerArchive: tar extraction, downloads and the size limit of the image.
- ProcessTree: parsing of the output of ps and the rates computed from it.
- PhaseLine: durations that are not integers, and the wall clock; aggregation of the samples.
- Command line parsing, help texts, recipe schemas, formatting helpers and the graphical front ends, which would add easy members only.
