# cockpit-mux and the callback edge, verified

A Dafny model of the state-carrying core of `cockpit-mux` (a terminal multiplexer daemon)
and of the callback edge of `remote-helper`, with proofs about every run of it.

    dafny verify dfyconfig.toml

## What is modelled

| file | part of the system |
|---|---|
| `HandoffProtocol.dfy`, `ReaderPause.dfy`, `HandoffPauses.dfy` | the live upgrade between two daemon processes as a transition system; the pause of one pane's reader with its abort and ready races; and the pauses of all panes, released together, as the parent's side of the upgrade |
| `HandoffManifest.dfy`, `HandoffAdoption.dfy`, `DescriptorOwnership.dfy` | the manifest and its strict validators, preparing and adopting it, and who holds each descriptor |
| `Layout.dfy`, `LayoutPlaces.dfy`, `Topology.dfy` | split trees, and what stands where in them; a logical session's window order, focus, zoom and trees |
| `Operations.dfy`, `TopologyClosure.dfy`, `ProjectIsolation.dfy`, `RequestEffects.dfy`, `FailedStops.dfy`, `DaemonOperations.dfy` | the daemon's topology requests as functions on its state, what every run keeps, the separation of projects, what each kind of request comes to, what is left when a process does not stop, and the same requests as the daemon runs them, updating its maps in place |
| `ModeState.dfy`, `ModeMeaning.dfy`, `ModePrefix.dfy`, `PrefixContinuation.dfy`, `ModeObserver.dfy` | the terminal mode observer, what each sequence means to it, the printer of its attach prefix, and what is observed after that |
| `PrimaryMirror.dfy`, `SavedCursor.dfy`, `MirrorFlag.dfy` | the filter that keeps a primary-screen shadow, its saved-cursor flag, and the flag a replacement daemon resumes it with |
| `OutputStream.dfy` | the sequenced live output, its seed barrier and the client that follows it |
| `Recorder.dfy` | keyframe and tail recording, the rows that hold them, and crash recovery |
| `HistoryArchive.dfy` | the archive of evicted rows and scrollback paging |
| `CallbackService.dfy`, `CallbackReply.dfy`, `CallbackWire.dfy`, `CallbackListener.dfy`, `TokenBucket.dfy` | reply correlation across handshakes, reply normalisation, the frame codec, socket takeover, and the burst limiter |
| `Text.dfy` | strings, decimal numbers and the string order |

Where the source updates state in place, a class or a method does so here and is proved
against a function; what the source promises is then proved of that function, over all
inputs or over every run of a transition system. The concurrent parts (upgrade, reader
pause, output, recording, callbacks, socket takeover) are systems of small steps that
interleave freely; each step is one critical section of the source.

Assumptions made throughout: a terminal's shadow is the history of what it has been fed, on
which feeding is additive, and a snapshot restores it exactly; MessagePack, zstd and JSON
are lossless, and which bytes are valid JSON is a parameter; database tables are sequences
and maps with atomic transactions; disk failures do not happen; ratios and times are real
numbers; in the topology modules the daemon has no catalog on disk.

## Findings

Properties the code does not have, each with the condition under which it does:

- Resizing a nested pane always changes the outermost split of the window: the branch that
  would reach an inner split is dead (`Layout.ResizeIsExactly`).
- Bytes a child reads between writing its ACK and the parent's failing to read it are lost
  (`HandoffProtocol.UnreadAckLoses`).
- Switching scrollback persistence on while a read is between the shadow and the recorder
  records that read twice (`Recorder.RacingSwitchRepeats`), and labels a keyframe grounded
  without asking the parser, as creating the recorder does (`Recorder.LabelsAreHonestExactly`).
- After the history is cleared, pages that reach below the cleared rows are short
  (`HistoryArchive.PageIsFullExactly`). Turning persistence off, or an upgrade, drops the
  evicted rows that wait for a batch, and so renumbers the live ones
  (`HistoryArchive.StepContinuesExactly`, `HistoryArchive.PrivacySwitchExactly`).
- An old daemon that flushes once more after an upgrade makes the new one's history batches
  unacceptable (`HistoryArchive.LateFlushBlocksExactly`) and its recovery record wrong
  (`Recorder.TakeoverIsCompleteExactly`), each exactly when it still had something to flush.
- The attach prefix has no place for the stack of kitty flags, so a client goes on like the
  daemon's observer exactly when there is none (`PrefixContinuation.ContinuesAlikeExactly`).
- When a process does not stop, the window being destroyed comes back last, without its zoom
  and tree (`FailedStops.NextLookRestores`).
- A handoff accepts ratios a daemon resets (`HandoffAdoption.AcceptedIsFixedExactly`,
  `HandoffAdoption.RatioSurvivesExactly`), though no reachable daemon sends one. It forgets
  the numbers of panes and windows that are gone, so that their names are given out again
  (`HandoffAdoption.CounterSurvivesExactly`).
- The primary mirror's saved-cursor flag ignores the order of a full reset and a later save
  within one piece, and misses an escape whose bytes an alternate-screen span sets apart
  (`SavedCursor.SavedCursorIsExactly`, `SavedCursor.ResetThenSave`,
  `SavedCursor.SaveAcrossSpan`).
- A replacement daemon resumes the primary mirror on the mode observer's flag, which the
  mirror's own need not equal (`PrimaryMirror.DropIsHarmlessExactly`,
  `MirrorFlag.CombinedSwitchDisagrees`); on streams that spell the switches plainly it does
  (`MirrorFlag.TakeoverIsHarmless`).
- Mode observation depends on the cut once a sequence, a long title for instance, exceeds
  16 KiB (`ModeState.ChunkIndependenceIsExact`).
- A second callback reply for one connection is accepted, though never used, in a window
  after the first was taken (`CallbackService.SecondAcceptanceExactly`).
- The burst limiter's bound by a window's length holds of every limiter exactly when the
  clock does not step back in the window (`TokenBucket.PromiseNeedsTheClockExactly`). The
  default clock never does; one passed in may, and then the bound is by the time it moved
  forward (`TokenBucket.AnyClockBound`).

## Model

| member | source | states |
|---|---|---|
| `HandoffProtocol.SingleReader` | cockpit-mux/cmd/cockpit-mux/main.go:409-479 | In every run of upgrades, whatever is refused, lost, timed out or killed at whatever moment, at most one process can consume a given pane's output. |
| `HandoffProtocol.Conservation` | cockpit-mux/daemon/attachment.go:257-290 | A pane's authoritative shadow is the bytes read off its PTY, in order, without the stretches that went down with a child; each of those was read by one child that had written an ACK and was gone before the ACK was read, whose own shadow is all that was kept until then followed by that stretch. With no such child nothing is missing. |
| `HandoffProtocol.NothingBeforeAck` | cockpit-mux/daemon/attachment.go:147-251 | A child that has not written its ACK has consumed nothing: its shadows are the snapshots it was sent. |
| `HandoffProtocol.NobodyStranded` | cockpit-mux/cmd/cockpit-mux/main.go:418-427 | From every reachable state of an attempt the parent's own remaining steps, down to one release per paused pane, are possible and lead back to serving: every reader runs, mutation is allowed, and nothing more is lost. |
| `HandoffProtocol.AdoptedAtGround` | cockpit-mux/daemon/attachment.go:401-429 | Every snapshot a child adopts was taken with the parser between sequences. |
| `HandoffProtocol.AckedIsReachable` | cockpit-mux/cmd/cockpit-mux/main.go:362-371 | Every attempt can reach the state in which the child reads behind a written, unread ACK. |
| `HandoffProtocol.UnreadAckLoses` | cockpit-mux/cmd/cockpit-mux/main.go:461-471 | From any such state a timeout of the ACK read loses what the child reads, so the exception in Conservation cannot be dropped. |
| `HandoffProtocol.RunKeepsInv` | cockpit-mux/cmd/cockpit-mux/main.go:284-407 | The invariant behind the protocol results (who may read, who is paused, whose shadow is ahead) holds along every run. |
| `HandoffProtocol.CommittedHandsOver` | cockpit-mux/cmd/cockpit-mux/main.go:461-479 | From every reachable state with an accepted result on the wire and a live child, reading it and the starts of the readers the child has not started yet are possible and end serving: the daemon is the former child, reads every pane and goes on from the old shadows; nothing is lost, and the old process is retired. |
| `HandoffProtocol.RetiredForGood` | cockpit-mux/cmd/cockpit-mux/main.go:473-479 | A retired process is left as it is by every further run, and never reads again. |
| `HandoffProtocol.UpgradeCanBeAcknowledged` | cockpit-mux/cmd/cockpit-mux/main.go:409-471 | From every reachable state of a serving daemon whose parsers are between sequences a run pauses every pane and gets an acknowledged child that holds exactly the snapshots. |
| `HandoffProtocol.UpgradeCanSucceed` | cockpit-mux/cmd/cockpit-mux/main.go:409-479 | So from every such state an upgrade can succeed whole: another process serves with the shadows the old one had, and nothing is read or lost on the way. |
| `HandoffProtocol.RefusalIsReported` | cockpit-mux/cmd/cockpit-mux/main.go:472-476 | A child can refuse what it was sent; that takes it down and tells the parent, whose recovery starts from there. |
| `HandoffProtocol.SendingMayFail` | cockpit-mux/cmd/cockpit-mux/main.go:461-465 | The sending can break off at any moment: the child then gets no further than what it has got, and neither writing an ACK nor reading one is possible. |
| `HandoffProtocol.ReaderTakesWhatWaits` | cockpit-mux/daemon/attachment.go:309-346 | Whoever reads a pane can take any number of the bytes that wait, and its shadow grows by exactly those. |
| `ReaderPause.PauseIsSafe` | cockpit-mux/daemon/attachment.go:373-441 | For every interleaving of reader, requesters and timeouts: no channel is closed twice, at most one requester holds a captured state and then the reader is stopped on that request, and a reader's stop always has its release closed or still owned. |
| `ReaderPause.StaleReaderClearsNothing` | cockpit-mux/daemon/attachment.go:401-429 | In every interleaving a request stays current until its pause is over: it leaves exactly by its own requester's timeout, or when the reader that stopped for it clears it, its release closed and its requester done. |
| `ReaderPause.UnfinishedIsCurrent` | cockpit-mux/daemon/attachment.go:373-399 | A requester that has not finished owns the current request, so no other can begin or clear one. |
| `ReaderPause.ReaderResumes` | cockpit-mux/daemon/attachment.go:431-441 | A stopped reader is put back in its loop by its requester's one remaining step and its own two, from every reachable state. |
| `ReaderPause.PauseIsGranted` | cockpit-mux/daemon/attachment.go:401-422 | From every reachable state in which a request waits unanswered and the reader is in its loop: the reader's next turn between sequences stops it for that request, and the requester gets to hold it; inside a sequence it reads on and the request stays. |
| `ReaderPause.OpenedIsCurrent` | cockpit-mux/daemon/attachment.go:373-399 | A new request becomes the current one, and without one the reader reads on. |
| `ReaderPause.StoppedForGood` | cockpit-mux/daemon/attachment.go:309-346 | A reader whose wait or read fails stops and never comes back: from then on no request is answered. |
| `HandoffPauses.NobodyStranded` | cockpit-mux/daemon/handoff_unix.go:108-117 | For any number of panes, from every state of every run, also with one pane timing out or refused after others are held: the daemon's own steps and then each reader's own lead to a daemon that serves, every reader in its loop, no request pending. |
| `HandoffPauses.AbandonedServes` | cockpit-mux/daemon/handoff_prepare.go:43-77 | From every reachable state the attempt can be abandoned without any help from the readers. |
| `HandoffPauses.HeldIsStopped` | cockpit-mux/daemon/handoff_prepare.go:57-77 | A pane the daemon holds has its reader stopped on that very request; once prepared, all of them. |
| `HandoffPauses.StepKeepsInv` | cockpit-mux/daemon/handoff_prepare.go:16-77 | Nobody but the daemon has an unfinished request in any pane, and it only the one it holds or asks for. |
| `HandoffPauses.CanPrepare` | cockpit-mux/daemon/handoff_prepare.go:16-77 | For any number of panes whose readers are in their loops and find their parsers between sequences, whatever earlier attempts left behind, asking each in turn leads to a prepared daemon that holds them all, every reader stopped on its own request. |
| `HandoffPauses.PausesRefineProtocol` | cockpit-mux/daemon/attachment.go:373-441 | Every step of requesters and readers amounts to steps of the parent in the upgrade protocol: a pane counts as reading there exactly while its reader is not waiting for a release. |
| `HandoffPauses.TogetherKeeps` | cockpit-mux/cmd/cockpit-mux/main.go:409-479 | The two stay matched, each with its invariant, through every run of panes and upgrade together. |
| `HandoffPauses.UpgradeCanPrepare` | cockpit-mux/cmd/cockpit-mux/main.go:409-434 | In the midst of any run of panes and upgrade, from wherever the daemon serves with its readers in their loops and its parsers between sequences, the upgrade can get to its prepared state, with the shadows unchanged. |
| `HandoffPauses.ChildReadsAlone` | cockpit-mux/cmd/cockpit-mux/main.go:409-479 | As long as there is a child, every reader of the parent is stopped, each on the request the parent holds it by. |
| `ModeState.ChunkIndependence` | cockpit-mux/daemon/modes.go:73-149 | Observing a and then b gives the state and the pending bytes of observing a+b whenever the sequence a leaves unfinished fits the carry-over. |
| `ModeState.AnyChunking` | cockpit-mux/daemon/modes.go:73-149 | The same for any number of reads. |
| `ModeState.ChunkIndependenceIsExact` | cockpit-mux/daemon/modes.go:127-137 | A cut is invisible, whatever follows, exactly when the unfinished sequence fits the carry-over, or what is kept of it is an unfinished command too and neither sets a title. So a long title and any long control sequence is observed differently when cut. |
| `ModeState.Observe` | cockpit-mux/daemon/modes.go:73-137 | After any input the carry-over is at most 16 KiB. |
| `ModeState.OscEnd` | cockpit-mux/daemon/modes.go:139-149 | The end of an operating system command is its first BEL or ESC backslash, at or after the start. |
| `ModePrefix.RoundTrip` | cockpit-mux/daemon/modes.go:231-285 | For every output in any pieces, a fresh observer fed the printed prefix agrees on alternate screen, every listed private mode, insert mode, scroll region, cursor shape, keypad, kitty flags and title, has synchronized output off, and has nothing pending. |
| `ModePrefix.ScanPrefix` | cockpit-mux/daemon/modes.go:231-285 | Exactly which modes a fresh observer has after the prefix. |
| `ModePrefix.ReachableIsTidy` | cockpit-mux/daemon/modes.go:151-227 | What an observer stores can be printed back inside a sequence: no parameter holds a final byte and no title a terminator. |
| `ModeMeaning.PopsUndoPushes` | cockpit-mux/daemon/modes.go:207-215 | Over observed streams: after n pushes of any flags a pop that asks for k leaves exactly what the first n-k of them left, and goes on into the older stack when k is more than n, but never pops the oldest flags. |
| `ModeMeaning.PopUndoesPush` | cockpit-mux/daemon/modes.go:207-215 | A number as it is written asks for itself; a missing or unreadable one, and one below 1, asks for one; so a push and a pop without a number cancel out. |
| `ModeMeaning.SetReplacesFlags` | cockpit-mux/daemon/modes.go:205-206 | Setting flags replaces those in force and no older ones. |
| `ModeMeaning.PrivateModesExactly` | cockpit-mux/daemon/modes.go:167-195 | A list of private modes switches each mode a parameter names, the alternate screen and bracketed paste with them, and nothing else; what is no number is skipped. |
| `ModeMeaning.InsertModeExactly` | cockpit-mux/daemon/modes.go:177-181 | Of the other modes only insertion is kept, switched exactly by a list with a parameter 4. |
| `ModeMeaning.TitleExactly` | cockpit-mux/daemon/modes.go:219-227 | A command sets the title exactly when its number is 0 or 2, to all that follows the first semicolon, and does nothing else. |
| `ModeMeaning.RegionAndShapeExactly` | cockpit-mux/daemon/modes.go:156-163 | The scrolling region and the cursor shape are kept as written; a private sequence of the first and one of the second without its space change nothing. |
| `ModeMeaning.OthersAreIgnored` | cockpit-mux/daemon/modes.go:73-166 | Four escapes set the keypad and the saved cursor; every other escape, every plain byte, every control sequence that ends in none of u, r, q, h and l, and every one in u that neither pushes, sets nor pops leaves the modes alone. |
| `Text.AtoiReads` | cockpit-mux/daemon/modes.go:169-174 | A number is read as it is written, with or without a sign, if it fits 64 bits. |
| `Text.AtoiRefuses` | cockpit-mux/daemon/modes.go:169-174 | Zeros before its digits change nothing, and what is not digits is no number. |
| `PrefixContinuation.ContinuesAlikeExactly` | cockpit-mux/daemon/modes.go:231-285 | After the prefix, a client's terminal and the daemon's observer agree on whatever is written next, in every continuation, exactly when the observer holds no stack of kitty flags and no unfinished sequence, and its carry-over, read again, changes nothing a client relies on. |
| `PrefixContinuation.AttachedContinuesExactly` | cockpit-mux/daemon/modes.go:197-217 | For every output in any reads that leaves nothing pending: exactly when the stack of kitty flags is empty. |
| `PrefixContinuation.ScanAlike` | cockpit-mux/daemon/modes.go:73-125 | Two observers that agree on what a client relies on and on the stack stay so, whatever they read. |
| `ModeObserver.Observer.Observe` | cockpit-mux/daemon/modes.go:73-125 | The in-place scanner computes the specified observation of its carry-over and the new bytes. |
| `ModeObserver.Observer.ObserveSequence` | cockpit-mux/daemon/modes.go:151-182 | The in-place effect of one control sequence is the specified one. |
| `ModeObserver.Observer.ObserveKittyKeyboard` | cockpit-mux/daemon/modes.go:197-217 | The in-place effect of a kitty keyboard sequence is the specified one, whose meaning PopsUndoPushes, PopUndoesPush and SetReplacesFlags give. |
| `ModeObserver.Observer.Print` | cockpit-mux/daemon/modes.go:231-285 | The buffer built item by item is the specified prefix. |
| `ModeObserver.FindOscEnd` | cockpit-mux/daemon/modes.go:139-149 | The search loop finds the specified end. |
| `PrimaryMirror.MirrorRefinesFilter` | cockpit-mux/daemon/primary_mirror.go:24-99 | For every stream and every way of cutting it: the bytes fed to the primary shadow are the stream without its alternate-screen spans and switches, minus only a trailing proper prefix of the enter switch; screen and carry-over are those of the one-shot run. |
| `PrimaryMirror.RunAppend` | cockpit-mux/daemon/primary_mirror.go:24-67 | Feeding a and then b is feeding a+b: same bytes, same screen, same carry-over. |
| `PrimaryMirror.RunIsFilter` | cockpit-mux/daemon/primary_mirror.go:24-67 | A run feeds exactly the primary-screen bytes of an independently defined filter. |
| `PrimaryMirror.DropIsHarmlessExactly` | cockpit-mux/daemon/attachment.go:188-192 | A replacement daemon resumes on the mode observer's screen and without the carry-over; every later stream is filtered alike exactly when that is the mirror's screen and no dropped byte can complete a switch. |
| `MirrorFlag.FlagsAgree` | cockpit-mux/daemon/modes.go:151-195 | The observer's flag is the screen of the mirror's filter on every stream that switches by the two plain spellings and begins no sequence inside another. |
| `MirrorFlag.TakeoverIsHarmless` | cockpit-mux/daemon/attachment.go:188-192 | On such a stream, in any reads, a takeover between sequences filters whatever comes next as the old mirror would have. |
| `MirrorFlag.CombinedSwitchDisagrees` | cockpit-mux/daemon/modes.go:161-182 | A switch sent together with another mode sets the observer's flag and not the mirror's, and then the takeover is not harmless. |
| `SavedCursor.SavedCursorIsExactly` | cockpit-mux/daemon/primary_mirror.go:69-75 | Over every stream in any reads: the flag is what the bytes fed so far call for after every piece, exactly when no piece saves the cursor again after a full reset and none completes, across a removed span, an escape that changes the flag. |
| `SavedCursor.PieceIsJudgedExactly` | cockpit-mux/daemon/primary_mirror.go:69-75 | The same for one piece after any bytes, as a condition on the places of the escapes. |
| `SavedCursor.ReadsDoNotSplitEscapes` | cockpit-mux/daemon/primary_mirror.go:38-57 | Where a read ends, the start of an escape is held back, so only a removed span can set its bytes apart. |
| `SavedCursor.ResetThenSave` | cockpit-mux/daemon/primary_mirror.go:69-75 | A reset and a save in one read leave the flag unset. |
| `SavedCursor.SaveAcrossSpan` | cockpit-mux/daemon/primary_mirror.go:59-75 | So does a save whose bytes a visit to the alternate screen sets apart. |
| `PrimaryMirror.PiecesAreFed` | cockpit-mux/daemon/primary_mirror.go:24-67 | The pieces a run feeds are together the bytes it feeds. |
| `PrimaryMirror.Mirror.Feed` | cockpit-mux/daemon/primary_mirror.go:24-67 | The in-place filter computes the specified run and saved-cursor flag, and every update of the primary shadow is at most 512 bytes. |
| `PrimaryMirror.Mirror.FeedPrimary` | cockpit-mux/daemon/primary_mirror.go:69-91 | The updates of one piece concatenate to the piece, each at most 512 bytes. |
| `PrimaryMirror.ConfirmedLength` | cockpit-mux/daemon/primary_mirror.go:38-57 | The loop keeps back exactly the longest suffix that could start the enter switch. |
| `OutputStream.ExactlyOnce` | cockpit-mux/daemon/stream.go:34-107 | For every interleaving of output, attaches, polls and deliveries in any order and number, an attached client has exactly the bytes before its seed and those of every chunk up to its cursor, none twice and none missing; it equals the shadow exactly when it has caught up. |
| `OutputStream.AttachesAndFollows` | cockpit-mux/daemon/pipeline.go:28-104 | In the midst of any run an attaching client is given all that the shadow has consumed, and then, asking, exactly what is read next. |
| `OutputStream.PollAdvances` | cockpit-mux/daemon/stream.go:62-85 | A poll with chunks available moves the client whatever its limit, and keeps a limit that holds a chunk. |
| `OutputStream.PollsDrain` | cockpit-mux/cmd/cockpit-mux/main.go:958-971 | A quiet pane is caught up with after at most one poll per outstanding chunk. |
| `OutputStream.ResponseIsLongest` | cockpit-mux/daemon/stream.go:62-85 | A bounded response is the longest run of chunks from the requested one that fits, or the single chunk that does not fit alone. |
| `OutputStream.UnboundedResponse` | cockpit-mux/daemon/stream.go:55-57 | Without a limit the response is every chunk from the requested one. |
| `OutputStream.AppendKeeps` | cockpit-mux/daemon/stream.go:34-50 | Appending adds exactly the given bytes, in chunks numbered without a gap, each of 1 MiB but the last. |
| `OutputStream.ReceiveKeepsStep` | cockpit-mux/cmd/cockpit-mux/main.go:963-971 | Applying any genuine response, late or repeated, keeps the client on the stream. |
| `OutputStream.Stream.Append` | cockpit-mux/daemon/stream.go:34-50 | The in-place loop performs the specified append and returns what it added. |
| `OutputStream.Stream.OutputsFromBounded` | cockpit-mux/daemon/stream.go:62-85 | The two loops compute the specified response. |
| `OutputStream.Pipeline.Pump` | cockpit-mux/daemon/pipeline.go:28-52 | Under one lock the shadow and the stream receive the same bytes. |
| `OutputStream.Pipeline.Attach` | cockpit-mux/daemon/pipeline.go:56-104 | A seed is the shadow as of the sequence it resumes before. |
| `OutputStream.Relay.Receive` | cockpit-mux/cmd/cockpit-mux/main.go:963-971 | The client's loop performs the specified reception. |
| `Recorder.CrashRecovery` | cockpit-mux/daemon/recorder.go:107-226 | In every run whose persistence switch does not race a read: a grounded record restores the terminal as of the last commit if and only if it was not resized since the keyframe; a crash loses less than 64 KiB and one read; since the keyframe the terminal consumed less than the hard cap and one read. |
| `Recorder.RecoveryIsExactly` | cockpit-mux/daemon/recovery_loader.go:43-89 | In every run whatever: a grounded record restores the terminal as of the last commit if and only if its keyframe was taken with no output in flight and no resize lies between the two. |
| `Recorder.RacingSwitchRepeats` | cockpit-mux/daemon/recorder.go:76-84 | Switching persistence on between a read's feed and its record makes the recovered terminal consume that read twice. |
| `Recorder.NeverRejected` | cockpit-mux/persistence/store.go:504-549 | Every batch the recorder offers is accepted: sequences rise and the cap is never reached. |
| `Recorder.FinalizeIsComplete` | cockpit-mux/daemon/recorder.go:141-156 | A clean shutdown restores the whole terminal, resizes included, exactly when the parser is between sequences. |
| `Recorder.TakeoverIsCompleteExactly` | cockpit-mux/daemon/attachment.go:598-622 | After an upgrade the new recorder's first keyframe restores the whole terminal, whatever the old one held; a last flush of the old process does no harm exactly when it has nothing pending, as after one flush since the pause. |
| `Recorder.LabelIsHonestExactly` | cockpit-mux/daemon/recorder.go:70-84 | Every step keeps the grounded label true, except that switching persistence on does so exactly when the parser is between sequences at that moment. |
| `Recorder.LabelsAreHonestExactly` | cockpit-mux/daemon/attachment.go:598-622 | Over a whole run, begun on a terminal that may have any content: the label is true at all times exactly when the parser was between sequences when the recorder was created, if content was kept then, and at each switching on. |
| `Recorder.ForcedExactly` | cockpit-mux/daemon/recorder.go:107-121 | When recording makes a record diagnostic only, and when it redeems one. |
| `Recorder.CompactedAtTheCap` | cockpit-mux/daemon/recorder.go:107-121 | A record that reaches the cap between two sequences becomes a keyframe that alone restores the whole terminal, so while every read ends there less than the cap is kept beside the keyframe. |
| `Recorder.FlushCommitsAll` | cockpit-mux/daemon/recorder.go:158-176 | A flush is possible at any time, and then the tail is every byte recorded since the keyframe. |
| `Recorder.SwitchTakesHold` | cockpit-mux/daemon/recorder.go:76-84 | Switched on, the record restores the whole terminal at once; switched off, it is blank; set to what it was, nothing changes. |
| `Recorder.NothingKept` | cockpit-mux/daemon/recorder.go:228-241 | While content is not persisted none of it is durable or pending. |
| `Recorder.OutputsAre` | cockpit-mux/daemon/attachment.go:319 | A read no longer than a chunk is recorded as one output. |
| `Recorder.PaneRecorder.RecordFed` | cockpit-mux/daemon/recorder.go:98-128 | The in-place recorder takes the specified branch. |
| `Recorder.PaneRecorder.Flush` | cockpit-mux/daemon/recorder.go:158-176 | A flush commits what is pending, or keeps it when the store rejects it. |
| `Recorder.PaneRecorder.Finalize` | cockpit-mux/daemon/recorder.go:141-156 | Flush, then a keyframe labelled by the parser's state. |
| `Recorder.PaneRecorder.SetPersistScrollback` | cockpit-mux/daemon/recorder.go:76-84 | A change writes a keyframe labelled grounded, blank when content is switched off. |
| `Recorder.PaneStore.AppendBatch` | cockpit-mux/persistence/store.go:504-549 | A batch is committed whole or rejected, for an empty chunk, sequences that do not rise, the cap, or a committed later sequence. |
| `Recorder.PaneStore.SaveKeyframe` | cockpit-mux/persistence/store.go:480-502 | A keyframe replaces the pane's tail in one transaction. |
| `Recorder.PaneStore.Recover` | cockpit-mux/daemon/recovery_loader.go:66-83 | Loading and replaying gives the specified terminal; a forced record gives none. |
| `HistoryArchive.LinesAreASlice` | cockpit-mux/daemon/history_archive.go:53-82 | Lines is exactly the asked-for slice of the one list of committed and waiting rows, as far as it is still stored. |
| `HistoryArchive.FlushIsInvisible` | cockpit-mux/daemon/history_archive.go:149-169 | A flush changes neither Lines nor LineCount. |
| `HistoryArchive.FlushIsAccepted` | cockpit-mux/persistence/history/store.go:114-131 | Every flush passes the store's contiguity check. |
| `HistoryArchive.ClearKeepsNumbers` | cockpit-mux/persistence/history/store.go:207-212 | Clearing drops the committed rows and keeps every other row's number. |
| `HistoryArchive.RecordIsSeamlessExactly` | cockpit-mux/daemon/history_tracker.go:33-88 | Collecting evicted rows loses none exactly when no row left Ghostty's history before a collection had seen it. |
| `HistoryArchive.NumbersNeverChange` | cockpit-mux/daemon/history_archive.go:106-169 | In every run, switches and takeovers included, whose steps each keep the numbers, the list only grows at its end, clearing drops its front, and a number that is still there names the row it always named. |
| `HistoryArchive.StepContinuesExactly` | cockpit-mux/daemon/history_archive.go:27-169 | Exactly when a step keeps the numbers: output and collection when no row is missed, switching off and opening by another process when no evicted row waits, and the latter not after a clear. |
| `HistoryArchive.RecordedExactly` | cockpit-mux/daemon/history_archive.go:106-129 | Recorded rows join those that wait, and all are committed as one batch exactly when together they reach 1 MiB, so less than that waits; an archive that is off takes none. |
| `HistoryArchive.StepKeepsCount` | cockpit-mux/daemon/history_archive.go:86-169 | Every step keeps the count of the bytes that wait right and below a batch. |
| `HistoryArchive.LiveRowsAreFollowed` | cockpit-mux/daemon/history_tracker.go:33-88 | After recording or taking over, whatever live row leaves Ghostty's history next is archived by the next recording, in order. |
| `HistoryArchive.SwitchTakesHold` | cockpit-mux/daemon/history_archive.go:86-102 | Switched on, the archive gets the rows that were live then as they leave, and none from before; switched off, it gets none. |
| `HistoryArchive.PrivacySwitchExactly` | cockpit-mux/daemon/operations.go:1439-1501 | Turning persistence off leaves the live rows; they keep their numbers exactly when no row waited. |
| `HistoryArchive.LateFlushBlocksExactly` | cockpit-mux/persistence/history/store.go:114-131 | If the old process commits waiting rows after the new one has opened the archive, the new one's batches are rejected from then on, and exactly then. |
| `HistoryArchive.PageIsASlice` | cockpit-mux/daemon/attachment.go:520-566 | For any offset and a count of at least one, a page is exactly the asked-for rows of archive then live, in order, numbered without a gap, as far as they are still stored. |
| `HistoryArchive.PageIsFullExactly` | cockpit-mux/daemon/attachment.go:520-566 | A page is short exactly when it reaches below the cleared rows. |
| `HistoryArchive.QueryIsThePage` | cockpit-mux/daemon/operations.go:1416-1437 | A request is refused for its count, or answered with exactly the page it asks for; no count the guard admits reaches the archive's range error. |
| `HistoryArchive.PagesTile` | cockpit-mux/daemon/attachment.go:520-566 | A page and the page before it are together the page of both counts. |
| `HistoryArchive.PagesCover` | cockpit-mux/daemon/attachment.go:520-566 | Pages that reach back far enough are together the whole list, each row once. |
| `HistoryArchive.Archiver.LinesBetween` | cockpit-mux/daemon/history_archive.go:53-82 | The loops over records and waiting rows compute Lines. |
| `HistoryArchive.Archiver.Record` | cockpit-mux/daemon/history_archive.go:106-130 | Collected rows join those waiting, and are flushed at 1 MiB. |
| `HistoryArchive.Archiver.Flush` | cockpit-mux/daemon/history_archive.go:149-169 | The in-place flush is the specified one. |
| `HistoryArchive.Archiver.SetEnabled` | cockpit-mux/daemon/history_archive.go:86-103 | A change drops what waits. |
| `HistoryArchive.HistoryStore.Append` | cockpit-mux/persistence/history/store.go:114-131 | An empty batch, or one that does not begin right after the last, is rejected. |
| `HistoryArchive.HistoryStore.Load` | cockpit-mux/persistence/history/store.go:134-162 | The batches that meet the range, in order; an inverted range is an error. |
| `HistoryArchive.ShadowScrollback` | cockpit-mux/daemon/shadow.go:182-210 | The window of live rows counted back from the newest. |
| `HistoryArchive.AttachmentScrollback` | cockpit-mux/daemon/attachment.go:520-566 | The page, computed on unsigned numbers without underflow. |
| `HistoryArchive.AnswerScrollback` | cockpit-mux/daemon/operations.go:1416-1437 | The request handler gives the specified reply. |
| `Layout.NormalizeIsExactly` | cockpit-mux/daemon/operations.go:2129-2158 | Normalising a tree without a repeated leaf gives a proper tree of exactly the live panes, each once: those it had in their order, then the rest ascending. |
| `LayoutPlaces.PruneStands` | cockpit-mux/daemon/operations.go:2139-2158 | Pruning nobody only resets ratios that leave a side less than a tenth, place by place; pruning one pane more removes it. |
| `LayoutPlaces.OnePlace` | cockpit-mux/daemon/handoff_unix.go:226-264 | A pane of a tree without a repeated leaf stands at one place. |
| `LayoutPlaces.LeavesHavePlaces` | cockpit-mux/daemon/operations.go:2062-2064 | Every leaf of a tree stands at a place. |
| `Layout.NormalizeIsIdentityExactly` | cockpit-mux/daemon/operations.go:2129-2158 | A tree that holds the live panes is kept exactly when it is proper. |
| `Layout.SplitIsExactly` | cockpit-mux/daemon/operations.go:2087-2101 | Splitting puts the new pane right after its source in the order of leaves, keeps the tree proper, and changes nothing where the source is not there. |
| `LayoutPlaces.SplitIsOneSplit` | cockpit-mux/daemon/operations.go:2087-2101 | Splitting a pane of a window yields the one tree that has exactly one split more, standing where the source stood, the source on its first side and the new pane on its second, in the direction asked for or horizontal, at the ratio asked for if it leaves both sides a tenth and else one half; at every other place stands what stood there. |
| `LayoutPlaces.AppendStandsLast` | cockpit-mux/daemon/operations.go:2055-2060 | A pane that joins a tree stands on the second side of a new outermost split, horizontal and even, whose first side is the tree as it was. |
| `Layout.RemoveIsExactly` | cockpit-mux/daemon/operations.go:2066-2085 | Removing takes out one leaf and closes its split. |
| `LayoutPlaces.RemoveStands` | cockpit-mux/daemon/operations.go:2066-2085 | At every place: removing a pane moves its sibling up into the place of the split they shared, and nothing else. |
| `Layout.RemoveUndoesSplit` | cockpit-mux/daemon/operations.go:2066-2101 | Removing a pane just split off gives back the tree. |
| `Layout.RemoveUndoesAppend` | cockpit-mux/daemon/operations.go:2055-2085 | Removing a pane just appended gives back the tree. |
| `Layout.ResizeIsExactly` | cockpit-mux/daemon/operations.go:2103-2116 | Resizing changes something exactly when the tree is a split that holds the pane, and then only the ratio of its outermost split, however deep the pane is. |
| `LayoutPlaces.ResizeStands` | cockpit-mux/daemon/operations.go:2103-2120 | At every place: the outermost split gets the ratio asked for if it leaves both sides a tenth and else one half, and nothing else changes. |
| `Layout.ValidSplitRatio` | cockpit-mux/daemon/operations.go:2118-2123 | A ratio always leaves either side at least a tenth. |
| `Layout.NormalizeLayout` | cockpit-mux/daemon/operations.go:2129-2137 | The loop over sorted panes computes the specified normal form. |
| `Layout.SortedMapKeys` | cockpit-mux/daemon/operations.go:2328-2335 | The keys in ascending order. |
| `Text.SortedKeysAscend` | cockpit-mux/daemon/operations.go:2328-2335 | The keys come in ascending order. |
| `Text.LeqExactly` | cockpit-mux/daemon/operations.go:2328-2335 | That is the order by the first byte that differs, a beginning before what it begins. |
| `Topology.NormalizedIsSettled` | cockpit-mux/daemon/operations.go:2160-2214 | Normalising any record without repeated leaves settles it over whatever panes are live. |
| `Topology.FocusFallsBack` | cockpit-mux/daemon/operations.go:2160-2213 | Normalising keeps a live focus; the active window falls to the first in order, a window's active pane to the least by name, and a zoomed pane that is gone to none. |
| `Topology.SettledIsFixed` | cockpit-mux/daemon/operations.go:2160-2214 | A settled session is left exactly as it is. |
| `Topology.NormalizeOrderIsExactly` | cockpit-mux/daemon/operations.go:2252-2273 | Every live window has one place: known ones in their order, then the rest ascending; a complete order is kept. |
| `Topology.FirstPlaceCounts` | cockpit-mux/daemon/operations.go:2252-2276 | A window placed more than once counts at its first place. |
| `Topology.PaneJoins` | cockpit-mux/daemon/operations.go:2041-2053 | A settled session that gains a pane changes by that pane alone: at the end of its window's tree, or in a new last window. |
| `Topology.PaneParts` | cockpit-mux/daemon/operations.go:2160-2214 | A settled session that loses one of several panes of a window changes by that pane's leaf, focus and zoom alone. |
| `Topology.PlacementIsSettled` | cockpit-mux/daemon/operations.go:2278-2298 | Closing a window leaves the session settled over the others. |
| `Topology.FocusAfterClosing` | cockpit-mux/daemon/operations.go:2278-2305 | Closing a window takes it and what was kept for it out and leaves the others in order; the focus moves only if it was there, to the next in order or to the one before when it was last. |
| `Topology.NormalizeWindowOrder` | cockpit-mux/daemon/operations.go:2252-2273 | The loops compute the specified order. |
| `TopologyClosure.TopologyIsClosed` | cockpit-mux/daemon/operations.go:2160-2298 | After any requests from an empty daemon: every logical session's topology is settled over its live windows and unchanged by normalising, and every project with sessions is in one of its own. |
| `TopologyClosure.HandleKeeps` | cockpit-mux/daemon/operations.go:587-723 | Every request, accepted or refused, keeps the invariant: unique names never used again, one project per logical session, settled topologies, live selections. |
| `TopologyClosure.CreateIsExactly` | cockpit-mux/daemon/operations.go:1021-1085 | Creating changes the daemon by the new pane alone, under names never used before. |
| `TopologyClosure.SplitStandsBeside` | cockpit-mux/daemon/operations.go:1183-1216 | Splitting a pane of any reachable daemon makes the new pane and one split more where its source stood, divided as asked, said place by place; it gets the focus, and every other split, window and session is as it was. |
| `TopologyClosure.NewWindowGoesLast` | cockpit-mux/daemon/operations.go:1251-1283 | A new window goes last, holds the new pane alone and takes the focus. |
| `TopologyClosure.ResizeSetsTheRatio` | cockpit-mux/daemon/operations.go:1218-1249 | Resizing is refused exactly where the window is one pane, and otherwise sets the ratio of the window's outermost split and nothing else. |
| `TopologyClosure.DestroyIsExactly` | cockpit-mux/daemon/operations.go:1503-1555 | Destroying the only pane of a window closes it; destroying one of several takes its leaf alone. |
| `TopologyClosure.DestroyWindowCloses` | cockpit-mux/daemon/operations.go:1560-1607 | Destroying a window takes exactly its panes and its place; a session that is gone hands the project's selection to the first by name. |
| `FailedStops.NextLookRestores` | cockpit-mux/daemon/operations.go:1584-1588 | When a process does not stop, whichever panes have stopped by then, the next look at the session restores the whole invariant: the remaining panes are in their window, which is now last, unzoomed and in ascending order, and nothing else has changed. |
| `TopologyClosure.SelectWindowMovesFocus` | cockpit-mux/daemon/operations.go:1732-1753 | Refused exactly where the session has no such window; else the session's focus moves to it and the project's to the session, and nothing else changes. |
| `TopologyClosure.SelectPaneMovesFocus` | cockpit-mux/daemon/operations.go:1756-1783 | Refused exactly where the window has no such pane; else the session's, the window's and the project's focus move to it, and nothing else changes. |
| `TopologyClosure.ZoomIsExactly` | cockpit-mux/daemon/operations.go:1787-1820 | Refused exactly where there is no such window or pane; else the session's focus moves to the window, its zoom is that pane or none, a zoomed pane has the window's focus, and nothing else changes. |
| `TopologyClosure.ReadIsInvisible` | cockpit-mux/daemon/operations.go:1825-1902 | Reading the topology changes nothing. |
| `ProjectIsolation.RequestsAreConfined` | cockpit-mux/daemon/operations.go:541-568 | No request, whatever it names, changes another project's sessions, their topology or its selection. |
| `RequestEffects.RequestsTakeEffect` | cockpit-mux/daemon/operations.go:587-723 | Every request that names nothing of another project's has, outside an upgrade, the effect of its own kind (the new pane, the split, the window, the ratio, the focus, the zoom, the loss) or that kind's own refusal; during an upgrade only reading is served. |
| `RequestEffects.RefusedForProjectExactly` | cockpit-mux/daemon/operations.go:541-568 | A request is refused for its project exactly when some live session or pane it names is another project's, and then nothing changes. |
| `DaemonOperations.NormalizeState` | cockpit-mux/daemon/operations.go:2182-2213 | The in-place loops over windows compute the specified normal form. |
| `DaemonOperations.RemoveWindowPlacement` | cockpit-mux/daemon/operations.go:2278-2298 | The in-place removal is the specified one. |
| `DaemonOperations.LiveDaemon.TopologyStateLocked` | cockpit-mux/daemon/operations.go:2160-2214 | Normalises one session in place, as specified, and nothing else. |
| `DaemonOperations.LiveDaemon.CreatePane` | cockpit-mux/daemon/operations.go:1021-1085 | The maps and counters after creating are the specified ones, also when the process does not start. |
| `DaemonOperations.LiveDaemon.Create` | cockpit-mux/daemon/operations.go:995-1017 | The operation leaves exactly the specified daemon and error, on every path. |
| `DaemonOperations.LiveDaemon.Split` | cockpit-mux/daemon/operations.go:1183-1216 | The operation leaves exactly the specified daemon and error, on every path; what that is, SplitStandsBeside says. |
| `DaemonOperations.LiveDaemon.NewWindow` | cockpit-mux/daemon/operations.go:1251-1283 | The operation leaves exactly the specified daemon and error, on every path. |
| `DaemonOperations.LiveDaemon.ResizeSplit` | cockpit-mux/daemon/operations.go:1218-1249 | The operation leaves exactly the specified daemon and error, on every path. |
| `DaemonOperations.LiveDaemon.SelectWindow` | cockpit-mux/daemon/operations.go:1732-1753 | The operation leaves exactly the specified daemon and error, on every path. |
| `DaemonOperations.LiveDaemon.SelectPane` | cockpit-mux/daemon/operations.go:1756-1783 | The operation leaves exactly the specified daemon and error, on every path. |
| `DaemonOperations.LiveDaemon.ZoomPane` | cockpit-mux/daemon/operations.go:1787-1820 | The operation leaves exactly the specified daemon and error, on every path. |
| `DaemonOperations.LiveDaemon.Destroy` | cockpit-mux/daemon/operations.go:1503-1555 | The operation leaves exactly the specified daemon and error, on every path on which the process stops. |
| `DaemonOperations.LiveDaemon.DestroyWindow` | cockpit-mux/daemon/operations.go:1560-1607 | The operation leaves exactly the specified daemon and error, on every path on which the processes stop. |
| `DaemonOperations.LiveDaemon.Reselect` | cockpit-mux/daemon/operations.go:1633-1677 | What is selected once a session has lost panes is as specified. |
| `DaemonOperations.LiveDaemon.LogicalSessionLocked` | cockpit-mux/daemon/operations.go:573-583 | Finds a pane by runtime ID, else any pane of the logical session; all of them agree on what the operations use. |
| `DaemonOperations.LiveDaemon.Authorize` | cockpit-mux/daemon/operations.go:541-568 | Admits a request exactly when the session and the pane it names are not another project's. |
| `DaemonOperations.LiveDaemon.ReadTopology` | cockpit-mux/daemon/operations.go:1831-1902 | Normalises each session it shows, and nothing else. |
| `DaemonOperations.LiveDaemon.Serve` | cockpit-mux/daemon/operations.go:587-723 | One request of one project leaves the specified daemon and error, and keeps the invariant. |
| `HandoffManifest.Validate` | cockpit-mux/daemon/handoff_unix.go:119-224 | The validator accepts exactly the manifests that satisfy the declarative predicate. |
| `HandoffManifest.ValidatePanes` | cockpit-mux/daemon/handoff_unix.go:133-162 | Panes are accepted exactly when complete and pairwise distinct in descriptor, session and pane, and are grouped by session and window. |
| `HandoffManifest.ValidateSession` | cockpit-mux/daemon/handoff_unix.go:175-221 | A session is accepted exactly when its order and windows match the live ones one to one and its focus and zoom name live panes. |
| `HandoffManifest.ValidateLayout` | cockpit-mux/daemon/handoff_unix.go:226-264 | The visitor accepts exactly well-formed trees whose leaves are the window's panes, each once. |
| `HandoffManifest.ValidateDescriptors` | cockpit-mux/daemon/handoff_unix.go:266-283 | Accepts exactly matching counts and indices in range. |
| `HandoffManifest.DescriptorsAreNamedOnce` | cockpit-mux/daemon/handoff_unix.go:119-283 | What both validators accept names every received descriptor exactly once. |
| `HandoffAdoption.PreparedIsValid` | cockpit-mux/daemon/handoff_prepare.go:16-105 | The manifest of any reachable daemon, all readers paused, passes both validators and describes exactly its sessions. |
| `HandoffAdoption.HandoffIsFaithful` | cockpit-mux/daemon/handoff_adopt.go:30-118 | Adopting the manifest of a reachable daemon gives back its sessions, focus, window order, zoom and exact trees and ratios, in a daemon that satisfies the same invariant. |
| `HandoffAdoption.ShiftKeepsPairing` | cockpit-mux/cmd/cockpit-mux/main.go:435-440 | Putting the listener first keeps the manifest acceptable and every pane paired with its own master. |
| `HandoffAdoption.SessionComesBack` | cockpit-mux/daemon/handoff_adopt.go:42-57 | A settled session that is prepared and adopted comes back unchanged. |
| `HandoffAdoption.SettledIsAccepted` | cockpit-mux/daemon/handoff_unix.go:163-222 | Every settled session is accepted by the independent validator. |
| `HandoffAdoption.AcceptedIsFixedExactly` | cockpit-mux/daemon/handoff_adopt.go:42-57 | An accepted session is left as it is by the new daemon exactly when it names its focus everywhere and its ratios leave each side a tenth. |
| `HandoffAdoption.RatioSurvivesExactly` | cockpit-mux/daemon/handoff_unix.go:226-264 | Every ratio strictly between nothing and all is accepted, and comes back exactly when it leaves each side a tenth. |
| `HandoffAdoption.GroupsAreLive` | cockpit-mux/daemon/handoff_unix.go:133-162 | The windows the validator expects are those the adopted sessions have. |
| `HandoffAdoption.CountersCover` | cockpit-mux/daemon/handoff_adopt.go:101-129 | The new daemon's counters cover every name it has taken over. |
| `HandoffAdoption.CounterSurvivesExactly` | cockpit-mux/daemon/handoff_adopt.go:101-129 | The session and window counters survive an upgrade exactly when the newest pane and window are still there; exactly otherwise the next name the new daemon gives out is one that was given out before. |
| `DescriptorOwnership.NewDaemon.AdoptHandoff` | cockpit-mux/daemon/handoff_adopt.go:30-118 | On success exactly the named descriptors have left their slots and each is owned by its own session; on failure no session is left and every file is still in its slot or closed. |
| `DescriptorOwnership.NewDaemon.TakeOver` | cockpit-mux/cmd/cockpit-mux/main.go:284-407 | The child ends up either serving with every pane descriptor owned, or with no session and every received file closed, save a listener that could not be adopted. |
| `DescriptorOwnership.NewDaemon.CloseDescriptors` | cockpit-mux/cmd/cockpit-mux/main.go:636-642 | Closes exactly the files still in their slots. |
| `DescriptorOwnership.OwnedOnce` | cockpit-mux/daemon/handoff_adopt.go:73-100 | After a takeover every descriptor but the listener's belongs to exactly one session. |
| `CallbackService.RepliesReachTheirRequest` | remote-helper/callback_service.go:162-241 | In every run with any number of service replacements, ids are never shared, and the reply a request took was addressed to it. |
| `CallbackService.LookupIsLive` | remote-helper/callback_service.go:162-180 | A lookup finds exactly the requests of the live service that are still registered. |
| `CallbackService.LookUpFindsExactly` | remote-helper/callback_service.go:228-234 | A reply finds somebody exactly when a registered request of the live service has its id; looking up changes nothing else. |
| `CallbackService.RefusedExactly` | remote-helper/callback_service.go:235-240 | In every run a reply that found somebody is refused exactly when the channel holds an earlier accepted one, and then nothing else changes; otherwise it is accepted and is the one the channel holds. So the first is accepted. |
| `CallbackService.FirstReplyAnswers` | remote-helper/callback_service.go:207-241 | The first reply for an id whose request still waits can be taken at once and is then that request's answer, under its own id. |
| `CallbackService.ArrivalRegistersExactly` | remote-helper/callback_service.go:162-174 | A new request is answered at once exactly when its service is closing; otherwise it waits, registered under an id nobody has had, also on a service that is not the live one. |
| `CallbackService.Conversation` | remote-helper/callback_service.go:188-241 | In the midst of any run with a live service: a request registers, the app's reply to it is found, accepted, taken and relayed, and nothing is left behind. |
| `CallbackService.Replaced` | remote-helper/callback_server.go:55-110 | A handshake makes a new open service the live one and lets the old one be retired, which closes it; whoever waits on it can still be answered in each of the helper's own ways. |
| `CallbackService.Disconnected` | remote-helper/callback_server.go:121-133 | Once the app is gone no reply finds anybody, every request waits on, and the service that was live can be retired. |
| `CallbackService.SecondAcceptanceExactly` | remote-helper/callback_service.go:228-241 | The first reply wins; a second is accepted, and never used, exactly when the request has taken the first and its channel is empty again. |
| `CallbackService.OneAnswer` | remote-helper/callback_service.go:188-223 | The answer a request has been given, stamped with its own id, never changes. |
| `CallbackService.AnswerIsFinal` | remote-helper/callback_service.go:188-223 | What an answered request's terminal is sent carries its own id: the normalised reply, `timeout`, or `not-connected`, each a known code and a bounded message, and nothing later changes it. |
| `CallbackService.ClosingAnswersAll` | remote-helper/callback_service.go:246-267 | Closing leaves no request unanswered: every waiting one can answer at once. |
| `CallbackService.ClosingAdmitsNobody` | remote-helper/callback_service.go:162-174 | A closing service stays so and takes no new request in any further run. |
| `CallbackService.ClosedForGood` | remote-helper/callback_service.go:246-267 | Once those that waited on a closing service have been answered, nobody waits on it in any further run. |
| `CallbackService.RunKeepsInv` | remote-helper/callback_server.go:55-154 | The correlation invariant holds along every run, through every replacement of the live service, also while a new one already accepts and the old one is still live. |
| `CallbackReply.NormalizedIsSafe` | remote-helper/callback_service.go:273-296 | Whatever the app sent, the answer carries the request's id; it is a success exactly when the app said so with a result, the app's own error exactly when its code is known, with its message cut to a bound and still text if it was, and else `internal`. |
| `CallbackReply.TruncateIsLongest` | remote-helper/callback_service.go:300-309 | A cut text is the longest beginning within the limit that is text, splitting no character. |
| `CallbackReply.BoundaryExactly` | remote-helper/callback_service.go:300-309 | A beginning of a text is text exactly when the byte after it begins a character. |
| `CallbackReply.TruncateUTF8` | remote-helper/callback_service.go:300-309 | The loop computes that cut. |
| `CallbackWire.RoundTrip` | remote-helper/callback_wire.go:58-136 | Encoded payloads, cut anywhere, come out as they went in with nothing left over. |
| `CallbackWire.EncodeRefusesExactly` | remote-helper/callback_wire.go:58-72 | A payload is refused exactly when it is longer than 64 KiB. |
| `CallbackWire.AnyChunking` | remote-helper/callback_wire.go:103-141 | For every way of cutting a stream: a good one yields exactly its payloads; a bad one a prefix of the valid ones, and the same failure for ever. |
| `CallbackWire.ParseAppend` | remote-helper/callback_wire.go:103-136 | Parsing a and then b is parsing a+b unless a fails, and then nothing that follows matters. |
| `CallbackWire.OversizeIsRefused` | remote-helper/callback_wire.go:113-121 | A header that announces too much, wherever it stands in a stream and however that is cut, ends the decoder in that failure, with only earlier payloads emitted. |
| `CallbackWire.MalformedIsRefused` | remote-helper/callback_wire.go:122-136 | The same of a frame whose payload is not valid. |
| `CallbackWire.DecodeChunk` | remote-helper/callback_wire.go:103-141 | After a successful push fewer than 4+maxBytes bytes stay buffered. |
| `CallbackWire.FrameDecoder.Push` | remote-helper/callback_wire.go:103-136 | The in-place decoder computes the specified push. |
| `CallbackListener.NewestHoldsThePath` | remote-helper/callback_listener.go:107-232 | In every run, killed processes included, a path that was taken is present exactly while the listener that took it last serves or has been killed, and then names that listener's socket. |
| `CallbackListener.DeadUntilRenamed` | remote-helper/callback_listener.go:107-166 | A killed listener's path names its dead socket through every further run, exactly until a newer listener is renamed over it. |
| `CallbackListener.HolderIsUndisturbed` | remote-helper/callback_listener.go:222-232 | While a listener, or a killed one's socket, holds a path, only a newer rename or its own close changes what the path names. |
| `CallbackListener.StartTakesThePath` | remote-helper/callback_listener.go:107-166 | A start that goes through takes the path at once, whoever held it, and leaves no temporary name; closing takes the path away again, and no other file changes. |
| `CallbackListener.KillLeavesFiles` | remote-helper/callback_listener.go:107-232 | A killed listener leaves every file where it is and does nothing more. |
| `CallbackListener.AbortLeavesNothing` | remote-helper/callback_listener.go:107-166 | A start that fails before the rename leaves the directory as it was. |
| `TokenBucket.WindowBound` | remote-helper/callback_limiter.go:35-53 | In any window of any run in which the clock does not step back, at most capacity plus the steady rate times the window's length is accepted. |
| `TokenBucket.AnyClockBound` | remote-helper/callback_limiter.go:35-53 | Whatever the clock does: at most capacity plus the steady rate times the time it moved forward in the window. |
| `TokenBucket.UpwardIsDistanceExactly` | remote-helper/callback_limiter.go:35-53 | That time is the window's length exactly when the clock does not step back in it. |
| `TokenBucket.ServeKeeps` | remote-helper/callback_limiter.go:35-53 | Tokens stay within zero and the capacity, whatever the clock does. |
| `TokenBucket.BurstIsServed` | remote-helper/callback_limiter.go:8-53 | A burst of as many calls as there are tokens is served, at whatever times they come. |
| `TokenBucket.SteadyIsServed` | remote-helper/callback_limiter.go:8-53 | Calls spaced so that each has earned its token are served for ever. |
| `TokenBucket.PromiseNeedsTheClockExactly` | remote-helper/callback_limiter.go:17-53 | The bound by a window's length holds of every limiter exactly when the clock does not step back in the window. |
| `TokenBucket.Limiter.TryTake` | remote-helper/callback_limiter.go:35-53 | The in-place limiter is the specified one. |

## Left out

- HandoffProtocol.Conservation: does not model the death of the process in charge (a parent that crashes, or a child that dies once the parent has read its ACK), a child orphaned when setting the socket deadline fails, a second upgrade that starts before the parent has read the ACK, or panes that exit during an attempt. A child that dies with its ACK still unread is modelled; if the parent then reads that ACK, no process is left to serve.
- Recorder.CrashRecovery: speaks of the active shadow; of the primary shadow after a restart only what MirrorFlag.TakeoverIsHarmless says of a takeover is claimed.
- MirrorFlag.FlagsAgree: gives a sufficient condition on the stream; streams outside it may agree by chance.
- SavedCursor.SavedCursorIsExactly: reads the two escapes byte for byte, as the code does, also where they stand inside another sequence.
- Recorder.PaneStore.AppendBatch: models the pane's catalog rows; the legacy single-pane rows, which receive the same batches, are not repeated.
- HistoryArchive.NumbersNeverChange: does not cover reflow of live rows by a resize.
- HistoryArchive.PageIsASlice: takes the archive's count and the live count as one reading, and the primary and active shadows as agreeing.
- OutputStream.ExactlyOnce: a client's detachment and a new daemon's restarted numbering are not modelled; sequence numbers do not wrap.
- DaemonOperations.LiveDaemon.Destroy: the in-place form stops the process; a process that does not stop is FailedStops.NextLookRestores. The lookup of recovered sessions by logical ID is not modelled.
- DaemonOperations.LiveDaemon.DestroyWindow: likewise for its processes.
- DaemonOperations.LiveDaemon.SelectWindow: the daemon-wide pointer to one focused pane record is not modelled, only each project's selected logical session.
- DescriptorOwnership.NewDaemon.AdoptHandoff: the import of snapshots is one outcome for the manifest, and selecting sessions for a manifest whose selections are inconsistent is not modelled.
- HandoffManifest.ValidateLayout: ratios are real numbers; a ratio that is not a number, which the validator lets through, has no counterpart.
- CallbackListener.NewestHoldsThePath: close's check and removal are one step, as the source accepts.
- HandoffProtocol.SingleReader, ReaderPause.PauseIsSafe, HandoffPauses.NobodyStranded, CallbackService.RepliesReachTheirRequest and CallbackListener.NewestHoldsThePath: these parts are transition systems on values, because their steps interleave between threads or processes; the identity of channels, locks and goroutines is not captured beyond the steps they allow.
- Ghostty's parsing, formatting, snapshots and graphics seeds: a foreign library.
- Processes, PTYs, signals, peer credentials and the timing of exits: behaviour of the operating system.
- SQL text, migrations, compression and file permissions: only the effect of each transaction is modelled.
- Topologies read back from older or foreign catalogs, and the catalog writes of the topology operations.
- Input, broadcast, pinning and attach bookkeeping of sessions, which does not touch the topology.
- The encoded size of a response: the byte limit counts payload bytes.
- The Electron application, remote provisioning and the command line's terminal handling.
