# Streams, grants and admissions of BitBang, verified

BitBang lets a browser or a command-line client reach a listener over one WebRTC
data channel. This project models, in Dafny 4.11, the parts of it that decide who
may do what and that no byte is lost on the way, and proves what their
documentation and tests promise of them. `dafny verify dfyconfig.toml` checks the whole
project; the proofs are kept within a resource limit rather than a time limit, so on a
slow machine use

    dafny verify --verification-time-limit 0 --resource-limit 2000000 dfyconfig.toml

| files | component |
|---|---|
| `protocol.dfy`, `wire.dfy` | the SWSP frame codec, the flow-control constants, and logs of what one end has put on the channel |
| `listener_stream.dfy`, `client_stream.dfy` | one stream's state at either end, as records with their critical sections and as classes updated in place |
| `listener_endpoint.dfy`, `client_endpoint.dfy` | each end as a transition system, one step per critical section, against any peer |
| `client_runs.dfy`, `listener_runs.dfy` | what runs of each end amount to: frames accepted, calls made, removals, resets, and that work can always go on or end |
| `flow_system.dfy`, `flow_delivery.dfy` | both ends over the ordered channel: conservation of credit, and delivery in order, in both directions |
| `frame_queue.dfy` | the hand-over queue between a peer's first frame and its session |
| `text.dfy`, `grant_fields.dfy`, `grant_spec.dfy`, `grant_grammar.dfy`, `grant_exact.dfy`, `grant_alike.dfy` | the grant language: quoting, grammar, printer, which grants survive a round trip, and which print alike |
| `allowlist.dfy`, `allowlist_reach.dfy`, `grant_narrow.dfy` | targets, paths, and narrowing a link under the listener's grant |
| `link_table.dfy`, `link_state.dfy`, `link_edits.dfy` | the code pipeline, the table, its edits, and the poll that revokes sessions |
| `websocket.dfy` | fragmentation of messages over stream frames |
| `readiness.dfy` | the stream-0 handshake |
| `share_slots.dfy`, `shell_admissions.dfy`, `devices.dfy` | admission tables |

Each class keeps the source's fields, and each of its methods is proved equal to a
function on a record of them; the transition systems and the lemmas about runs use the
same functions. A machine's step is one critical section of the source, so its runs are
all interleavings at lock granularity.

## What the proofs found

Where the code does less than its comments, tests or design say, the model follows the
code, a lemma exhibits the difference, and another says exactly when there is none.

- `internal/framequeue/queue.go:134-137` describes one atomic hand-back, but drain looks
  for an empty backlog and clears `dispatching` in two critical sections. A frame queued
  between them is never delivered and later frames overtake it (`FrameQueue.GapOvertakes`,
  `FrameQueue.StrandedForGood`; `FrameQueue.DeliversAllIffNoGap` is the exact condition).
- A data frame whose write fails leaves the client's stream open with its credit spent
  (`internal/client/session.go:790-795`); the listener fails the stream instead. So the
  client can lose send credit for good (`FlowSystem.FailedWrites`, the run of
  `FlowSystem.CreditLost`; `FlowSystem.NoCreditDeadlockUp` is what is left).
- Without flow control, a stream that fails after sending its FIN sends a second one
  (`internal/session/flow.go:299-309`; `ListenerEndpoint.LegacyFailsWithSecondFin`, and
  `ListenerEndpoint.OrderedIff` for when the order holds).
- A printed grant does not always read back: quotes in a command's arguments, both kinds
  of quote in a path, blanks in targets, or an argument that is a capability word
  (`GrantExact.ReadsBackIff` is the exact condition).
- A link's target that the allowlist permits but that does not parse as an entry, such as
  one with port 0, passes narrowing; the list built from it at
  `cmd/bitbang/capability.go:301-304` is then empty, which permits everything
  (`GrantNarrow.UnparsedTargetReachesAll`; `GrantNarrow.TargetsCeiling` is the exact
  condition, that all targets parse).
- A listener that grants files without a path shares its working directory
  (`cmd/bitbang/serve.go:138-144`), but a link under it may name any path
  (`internal/grant/grant.go:291-292`), which is then served
  (`cmd/bitbang/serve_listen.go:222-226`): `GrantNarrow.EtcIsAccepted`,
  `GrantNarrow.PathLeavesWorkingDirectory`. `GrantNarrow.PathCeiling` and
  `GrantNarrow.NarrowIsCeiling` are the exact conditions.
- The poll compares grants by their printed lines (`internal/links/terms.go:96-103`), and
  different grants can print alike: the line `proxy "a forward b:22"` replaces
  `proxy a forward b:22` without closing the sessions that lose `forward`
  (`LinkState.LostCapabilityKeepsSession`, `GrantAlike.BlankCollides` and its neighbours).
  `GrantNarrow.SameReachIff` says which lines cannot. Reordered targets reach the same and
  count as a change (`GrantNarrow.ReorderedCountsAsDifferent`).
- De-duplicating and retiring codes do not commute, despite the remark at
  `cmd/bitbang/serve_links.go:97-99` (`LinkTable.PassesDoNotCommute`,
  `LinkTable.PassesCommuteIff`). The code uses the right order.
- Replacing a link whose expiry passed since the last reload, with a later expiry, keeps
  its code, where the comment at `cmd/bitbang/serve_links.go:392-395` promises a fresh one
  (`LinkState.RenewalJudgedOnNewTerms`).
- An edit of a file whose labels clash fails after the file was written with it: the caller
  is told of an error, and the edit takes effect once the clash is mended
  (`cmd/bitbang/serve_links.go:325-332`; `LinkEdits.FailedEditLeaves`,
  `LinkEdits.EditSucceedsIff`).
- Removing a link revokes its sessions unless exactly one live row under another label
  shares the code (`LinkState.SurvivesIff`, `LinkState.CopyOutlivesRemoval`).
- With a PIN, authenticating before the first connect makes a session ready before its
  version is settled, and streams opened then stay without flow control when the connect
  settles it (`Readiness.AuthBeforeConnect`, `Readiness.StreamsShareMode`).

Two further differences are harmless and part of the model: the client sends no window
update for the frame that carries FIN, and a window update may follow a reset on the wire,
since it is not sent under the stream's write lock.

## Model

| member | source | states |
|---|---|---|
| `Protocol.NegotiateSWSPVersion` | internal/protocol/swsp.go:197-206 | a peer's version between 1 and 4 is spoken as it is, a later one as 4, and none as one without flow control |
| `Protocol.BuildFrame` | internal/protocol/swsp.go:166-173 | the buffer holds the little-endian header, with the payload length cut to 16 bits, and the payload |
| `Protocol.ParseInvertsBuild` | internal/protocol/swsp.go:132-173 | parsing a built frame gives the frame back exactly when its payload is shorter than 64 KiB |
| `Protocol.BuildInvertsParse` | internal/protocol/swsp.go:132-173 | every byte string that parses is the one encoding of the frame it parses to |
| `Protocol.FlagsApart` | internal/protocol/swsp.go:176-183 | each flag is a bit of its own, whatever else is set |
| `ListenerStream.StreamState.Enqueue` | internal/session/flow.go:83-134 | takes or refuses a frame as the specification does, refusals change nothing, and the fallback for a full channel is never taken |
| `ListenerStream.StreamState.TakeFrame` | internal/session/session.go:203-225 | moves the oldest queued frame to the worker while the counters still hold it |
| `ListenerStream.StreamState.Dequeued` | internal/session/flow.go:136-141 | uncounts exactly the frame the worker took |
| `ListenerStream.StreamState.StopNow` | internal/session/flow.go:149-159 | closes the stream and tells whether this call did |
| `ListenerStream.StreamState.UpdateSendMax` | internal/session/flow.go:161-169 | the limit only rises, and never on a closed stream |
| `ListenerStream.StreamState.ReserveSend` | internal/session/flow.go:171-204 | the wait loop charges the bytes once, when credit suffices, whatever wakes it |
| `ListenerStream.StreamState.Consume` | internal/session/flow.go:226-246 | counts consumption and reports the new limit when half a window has gone by |
| `ListenerStream.StreamState.Announce` | internal/session/flow.go:206-224 | an update in the making never lowers the advertised limit and is dropped on a closed stream |
| `ListenerStream.StreamState.MarkReceiveClosed` | internal/session/flow.go:248-256 | records the finished direction and reports whether the other had finished already |
| `ListenerStream.StreamState.MarkSendClosed` | internal/session/flow.go:258-266 | the same for the sending direction |
| `ListenerStream.ChannelNeverFull` | internal/session/flow.go:98-134 | a frame is accepted exactly when no FIN is queued, the window covers it, and both queue bounds have room; the channel itself never decides |
| `ListenerStream.ConsumeKeeps` | internal/session/flow.go:226-246 | an update is due exactly at half a window, and grants a full window past what was consumed |
| `ListenerStream.ReserveIffRaised` | internal/session/flow.go:171-204 | a blocked writer gets its credit exactly when the updates before anything terminal raise the limit far enough, and otherwise fails as the first other wake says |
| `ListenerStream.ClosedIsInert` | internal/session/flow.go:83-204 | a closed stream takes no frame, grants no credit, moves no window |
| `ListenerStream.OpenReserves` | internal/session/flow.go:161-204 | the limit is the largest granted; what costs nothing, or has no flow control, is never held back |
| `ListenerStream.AnnounceRaises` | internal/session/flow.go:206-214 | an update leaves the larger of its window and the one advertised |
| `ListenerEndpoint.RunKeepsInv` | internal/session/flow.go:83-312 | every interleaving of dispatcher, worker, writers, failure and shutdown keeps the five invariants of an incarnation |
| `ListenerEndpoint.OverRuns` | internal/session/flow.go:83-312 | from the opening SYN on, in every run: counters exact and within 256 frames and 1 MiB, exactly one of the two closers finds both directions finished, and FIN and reset are in terminal order on the wire, always with flow control, and without it exactly unless a failure was announced after the stream's own FIN |
| `ListenerEndpoint.OrderedIff` | internal/session/flow.go:277-312 | terminal order holds exactly when the stream has flow control, or no failure was announced on it, or it had not sent its FIN |
| `ListenerEndpoint.LegacyFailsWithSecondFin` | internal/session/flow.go:299-309 | without flow control, a run that puts two FINs on the wire |
| `ListenerEndpoint.HandlerOverRuns` | internal/session/session.go:203-270 | the handler sees OnSYN once and first, then a prefix of the accepted frames in order, and OnFIN at most once, last, never inside a fragmented message |
| `ListenerEndpoint.RefusedBytesExplained` | internal/session/flow.go:98-134 | an in-window frame is refused for bytes only while a SYN payload, or a frame consumed but not yet dequeued, is still counted |
| `ListenerEndpoint.RemovedOnlyWhenFinishedOrFailed` | internal/session/flow.go:248-312 | the stream leaves the table only when both directions have finished, on a failure, or with the session |
| `ListenerEndpoint.TerminalKept` | internal/session/flow.go:277-312 | no step breaks the terminal order: nothing but a reset after a FIN, at most one reset, no frame after it, a legacy failure's empty FIN aside |
| `ListenerEndpoint.CloseKept` | internal/session/flow.go:248-275 | no step breaks the account of which closer removes the stream |
| `ListenerEndpoint.HandlerKept` | internal/session/session.go:227-270 | no step breaks the correspondence of handler calls and accepted frames |
| `ListenerEndpoint.AcceptedKept` | internal/session/flow.go:83-141 | no step loses or reorders an accepted frame |
| `ListenerRuns.CalledUnlessUnfit` | internal/session/session.go:227-270 | the handler is called exactly once, as due, for a frame taken, unless that is a FIN in a fragment or a fragment the handler does not take; the worker gives up exactly then or when the handler refuses |
| `ListenerRuns.CallsOverRuns` | internal/session/session.go:203-270 | in every run the calls are those due for a prefix of the frames accepted, each by its kind; and with no refusal, no unfit frame, every update sent and nothing ending the stream, for all the worker has taken, every byte of which is consumed, a FIN closing the direction |
| `ListenerRuns.AllCanBeHandled` | internal/session/session.go:203-225 | while the stream is kept and its frames are fit, the worker has moves that call the handler for every frame accepted |
| `ListenerRuns.AcceptedIffAdmitted` | internal/session/flow.go:83-134 | a frame found in the table is accepted exactly when it is no SYN, no FIN came before, the window covers it and it fits beside the frames held; otherwise the stream is failed |
| `ListenerRuns.RefusalExplained` | internal/session/flow.go:98-134 | an in-window frame of an open stream is refused only for 256 held frames, or for bytes of a SYN or of a frame consumed and not dequeued |
| `ListenerRuns.AllArrivalsAccepted` | internal/session/flow.go:83-134 | over every run that leaves the stream in the table, it has accepted its SYN and every frame that arrived, in order |
| `ListenerRuns.RemovedIff` | internal/session/flow.go:248-312 | the exact causes for which the stream leaves the table, and which of them mark it for a reset |
| `ListenerRuns.OutOverRuns` | internal/session/flow.go:268-290 | over every run a stream out of the table is stopped, or whoever took it out has still to stop it |
| `ListenerRuns.ResetsAccounted` | internal/session/flow.go:277-312 | over every run failures told to the peer, at most one, are the resets sent, on their way, unsendable, or too late for a finished stream |
| `ListenerRuns.WrittenWhenCovered` | internal/session/flow.go:171-204 | a frame written in an open direction goes out exactly when the credit covers it, and is charged |
| `ListenerRuns.WorkerCanStop` | internal/session/session.go:203-225 | once the stream is stopped or the session closed the worker can come to its end without taking another frame |
| `ListenerRuns.WriterCanStop` | internal/session/flow.go:194-202 | and a writer, waiting for credit or not, can give up the write lock |
| `ListenerRuns.SessionDoneIff` | internal/session/flow.go:194-202 | the session is closed for the stream exactly once it was closed in the run |
| `ClientStream.StreamState.CountFrame` | internal/client/session.go:488-513 | the first critical section of enqueue: counts the frame or refuses it, changing nothing |
| `ClientStream.StreamState.PushFrame` | internal/client/session.go:514-526 | the second: a counted frame always finds room in the channel |
| `ClientStream.StreamState.TakeFrame` | internal/client/session.go:451-456 | moves the oldest pending frame to the delivery worker, still counted |
| `ClientStream.StreamState.Release` | internal/client/session.go:528-533 | uncounts exactly that frame |
| `ClientStream.StreamState.Consume` | internal/client/session.go:535-554 | uncounts and consumes in one critical section, and reports the new limit when half a window has gone by |
| `ClientStream.StreamState.ActivateInitialWindow` | internal/client/session.go:556-567 | opens both windows once |
| `ClientStream.StreamState.UpdateSendLimit` | internal/client/session.go:601-609 | the limit only rises |
| `ClientStream.StreamState.ReserveSend` | internal/client/session.go:575-599 | the wait loop charges the bytes once, when credit suffices, whatever wakes it |
| `ClientStream.StreamState.Fail` | internal/client/session.go:611-620 | marks the stream failed and abandoned |
| `ClientStream.ReserveNeverOverdraws` | internal/client/session.go:575-599 | the charge never passes the limit, so the unsigned subtraction in the guard never wraps |
| `ClientStream.PushKeeps` | internal/client/session.go:514-526 | within the counters the default branch of the send is dead |
| `ClientStream.ConsumeKeeps` | internal/client/session.go:535-554 | an update is due exactly at half a window, and grants a full window past what was consumed |
| `ClientStream.CountedIff` | internal/client/session.go:488-513 | a frame is counted exactly when the stream was opened and not finished, the window covers it and it fits beside the frames held; otherwise the first of these that fails is the reason |
| `ClientStream.ReserveIffRaised` | internal/client/session.go:575-599 | a writer gets its credit exactly when the updates before anything else raise the limit far enough, and otherwise fails as the first other wake says |
| `ClientStream.ActivatedOnce` | internal/client/session.go:556-567 | opening the windows again changes nothing |
| `ClientEndpoint.RunKeepsInv` | internal/client/session.go:430-554 | every interleaving at the client, closing by its caller at any moment included, keeps its invariants |
| `ClientEndpoint.OverRuns` | internal/client/session.go:430-554 | from the opening on, in every run: counters exact and bounded, the caller has a prefix of the accepted frames, terminal order on the wire, and a finished stream is gone or about to go |
| `ClientEndpoint.RefusedBytesExplained` | internal/client/session.go:488-504 | on the client only a counted SYN payload can keep an in-window frame out |
| `ClientEndpoint.RemovedOnlyWhenFinishedOrFailed` | internal/client/session.go:406-449 | the stream leaves the table only when its FIN was sent and the peer's delivered, on a failure, when its caller closes it, or with the session |
| `ClientEndpoint.TerminalKept` | internal/client/session.go:755-801 | no step breaks the terminal order of what the client sends |
| `ClientEndpoint.SynKept` | internal/client/session.go:769-787 | a stream opened with one SYN sends it before anything else |
| `ClientRuns.AcceptedIffAdmitted` | internal/client/session.go:353-380 | the dispatcher accepts exactly the frames the stream admits, and fails it for any other |
| `ClientRuns.RefusalExplained` | internal/client/session.go:488-513 | an in-window frame of an open stream is refused only for 256 held frames, or for the bytes of a SYN |
| `ClientRuns.AllArrivalsAccepted` | internal/client/session.go:353-380 | over every run that leaves the stream in the table, it has accepted every frame that arrived, in order |
| `ClientRuns.RemovedIff` | internal/client/session.go:406-449 | the exact causes for which the stream leaves the table, and which of them mark it for a reset |
| `ClientRuns.ResetsAccounted` | internal/client/session.go:423-449 | over every run failures told to the peer, at most one, are the resets sent, on their way or unsendable |
| `ClientRuns.AllCanBeDelivered` | internal/client/session.go:451-486 | while the session is up and the stream kept, the worker has moves that hand over everything accepted, in order |
| `ClientRuns.OutOverRuns` | internal/client/session.go:406-449 | over every run a stream out of the table has finished, or is abandoned, or about to be |
| `ClientRuns.TendedOverRuns` | internal/client/session.go:451-486 | while the stream is kept and its worker at work, every window byte received is consumed or held, and the inbound direction closes with the FIN, once that is handed over |
| `ClientRuns.WorkerCanStop` | internal/client/session.go:451-486 | once the stream is abandoned or the session closed the worker can come to its end, handing over nothing more |
| `ClientRuns.WriterCanStop` | internal/client/session.go:575-599 | and a writer, waiting for credit or not, can give up the write lock |
| `ClientRuns.FailedTurnsAway` | internal/client/session.go:575-583 | a failed stream turns a waiting writer away |
| `ClientRuns.SessionDoneIff` | internal/client/session.go:622-640 | the session is closed for the stream exactly once it was marked so in the run |
| `FlowSystem.CreditOverRuns` | internal/session/flow.go:83-246 | in every reachable state of both ends with the stream kept: sent = received + in flight + reserved (+ lost to failed client writes), and sent is within the limit, which is within the advertised window |
| `FlowSystem.CreditSafety` | internal/client/session.go:488-609 | the same from the invariant, with every window update in flight within what is advertised |
| `FlowSystem.FlowOverRuns` | internal/client/session.go:488-609 | the flow invariant holds after every run of the two endpoints over the ordered channel |
| `FlowSystem.NoWindowViolation` | internal/session/flow.go:91-97 | no frame sent under reserved credit is ever refused for exceeding the window, at either end |
| `FlowSystem.NoCreditDeadlockUp` | internal/protocol/swsp.go:48-55 | at rest the client has more than half a window left, less what failed writes cost it; a frame is granted exactly when it fits a window less what is consumed and not yet announced and less that cost, so any legal frame is while nothing was lost |
| `FlowSystem.NoCreditDeadlockDown` | internal/protocol/swsp.go:48-55 | at rest the listener always has more than half a window left, and a frame is granted exactly when it fits that, as any legal one does |
| `FlowSystem.FailedWrites` | internal/client/session.go:790-795 | a failed data write leaves the client's stream open with the credit gone, and closes the listener's |
| `FlowSystem.CreditLost` | internal/client/session.go:769-801 | a run from the opening in which it does: both ends keep the stream and the credit of the first data frame is gone |
| `FlowSystem.BalancedKept` | internal/session/flow.go:171-204 | no step of either end, or of the channel, creates or loses a byte of credit |
| `FlowSystem.GrantsKept` | internal/session/flow.go:206-246 | what is granted, wherever the grant is, never exceeds what the receiver advertises, and equals it while both serve |
| `FlowDelivery.DeliveredEndToEnd` | internal/client/session.go:353-486 | in every reachable state of both ends the caller has got, in order, a prefix of the frames the listener wrote, and the handler was called, as due, for a prefix of those the listener accepted, which while it keeps the stream are all of the client's it has read |
| `FlowDelivery.AllDeliveredAtRest` | internal/session/session.go:203-270 | with both ends keeping the stream and nothing on its way, caller and handler have got every frame the other end wrote |
| `FlowDelivery.ReadingGoesOn` | internal/client/session.go:318-383 | what is in flight can always be read, at either end, once the message before is dealt with |
| `FlowDelivery.RefusedStreamIsReset` | internal/session/session.go:140-200 | a stream the listener does not take is reset, and gone at the client once that is read |
| `FrameQueue.Queue.Enqueue` | internal/framequeue/queue.go:79-102 | routes a frame as specified: ignored, overflowing, queued within the byte bound, or direct |
| `FrameQueue.Queue.Publish` | internal/framequeue/queue.go:113-132 | hands the backlog over as the first batch and turns on dispatching |
| `FrameQueue.Queue.Close` | internal/framequeue/queue.go:188-214 | drops the backlog once |
| `FrameQueue.Queue.Drain` | internal/framequeue/queue.go:138-172 | undisturbed, drain delivers the batch and the whole backlog in order and hands routing back |
| `FrameQueue.TakenInIff` | internal/framequeue/queue.go:79-102 | a frame is taken in exactly unless the queue is closed, or it would have to wait and does not fit beside the backlog |
| `FrameQueue.AllTakenIn` | internal/framequeue/queue.go:79-102 | until Close, while all that arrives fits the bound together, every frame is taken in, in order, before Publish too |
| `FrameQueue.DrainCanFinish` | internal/framequeue/queue.go:138-172 | left to itself on an open queue the drain delivers its batch and the whole backlog, in order, and hands routing back |
| `FrameQueue.EveryArrivalDelivered` | internal/framequeue/queue.go:134-172 | with one hand-back step, every frame that arrives before Close is delivered, in order, once the drain has finished |
| `FrameQueue.CloseStopsDelivery` | internal/framequeue/queue.go:145-170 | after Close nothing is taken in, and only frames already on their way are delivered |
| `FrameQueue.DeliveredInOrder` | internal/framequeue/queue.go:79-179 | in every interleaving of the code's critical sections delivery is a repeat-free in-order part of what was accepted, what is missing is one stretch, and the byte count is the backlog's and bounded |
| `FrameQueue.NoFrameOvertakes` | internal/framequeue/queue.go:134-172 | with the empty check and the clearing of dispatching as one step, accepted = delivered + batch + backlog (or the direct frame), in arrival order, until Close, and delivery is always a prefix |
| `FrameQueue.DeliversAllIffNoGap` | internal/framequeue/queue.go:139-168 | with the two steps of the code, everything is delivered exactly when no frame was queued between them |
| `FrameQueue.StrandedForGood` | internal/framequeue/queue.go:139-168 | a frame queued in that gap is never delivered, whatever follows |
| `FrameQueue.GapOvertakes` | internal/framequeue/queue.go:138-172 | a short run in which a later frame is delivered and an earlier one never is |
| `FrameQueue.StepKeeps` | internal/framequeue/queue.go:79-214 | every step keeps the account of every accepted frame |
| `GrantFields.SplitLine` | internal/grant/grant.go:379-410 | the splitting loop is the scanner the lemmas are about, unbalanced quotes included |
| `GrantFields.SplitInvertsJoin` | internal/grant/grant.go:379-440 | quoted fields joined by blanks split back into themselves, unless one holds both kinds of quote |
| `GrantFields.FieldRoundTrip` | internal/grant/grant.go:429-440 | quoteField is undone by splitting exactly for fields that lack one kind of quote |
| `GrantFields.CommandRoundTrip` | internal/grant/grant.go:421-427 | a command survives both splits exactly when no argument holds a quote |
| `GrantFields.SplitSpends` | internal/grant/grant.go:379-410 | no line is shorter than the fields it splits into require |
| `GrantGrammar.SplitMarks` | internal/grant/grant.go:379-410 | a line of blanks, plain characters and quoted stretches splits into the fields they spell, and with a quote left open after them is refused for it |
| `GrantGrammar.EveryLine` | internal/grant/grant.go:379-410 | every line is of one of these two kinds |
| `GrantGrammar.RefusedIffLeftOpen` | internal/grant/grant.go:379-410 | a line is refused exactly when it leaves a quote open, and for that quote |
| `GrantGrammar.AnyBlankSeparates` | internal/grant/grant.go:392-397 | a blank, a tab or either line end separates words |
| `GrantGrammar.ClausesRead` | internal/grant/grant.go:113-168 | fields are read exactly when they are words each with at most one argument, none twice, a command that splits; and then each capability named has the argument it was given and nothing else is granted |
| `GrantGrammar.EveryFields` | internal/grant/grant.go:113-168 | all fields are such clauses, and perhaps one that cannot be part of any |
| `GrantSpec.ParseWords` | internal/grant/grant.go:113-168 | the parsing loop is the grammar: words, the argument rule, named twice, bad quotes |
| `GrantSpec.AssignArg` | internal/grant/grant.go:145-165 | what each word makes of its argument |
| `GrantSpec.SplitTargets` | internal/grant/grant.go:170-181 | a comma list gives its trimmed, non-empty parts in order |
| `GrantSpec.RenderSpec` | internal/grant/grant.go:185-219 | the printing loop is the line the lemmas are about |
| `GrantSpec.GrantRoundTrip` | internal/grant/grant.go:102-219 | reading back a printed grant gives the grant without arguments of words it does not hold; a grant of nothing reads back as unspecified |
| `GrantSpec.ParseStringYields` | internal/grant/grant.go:104-181 | every parsed grant names something or is unspecified, carries only arguments of its own words, and lists only trimmed non-empty targets |
| `GrantSpec.ParsedReadsBack` | internal/grant/grant.go:102-219 | a parsed grant with printable arguments survives printing and reading |
| `GrantExact.ReadsBackIff` | internal/grant/grant.go:102-219 | the exact condition, for all grants, under which ParseString(String(s)) = s |
| `GrantExact.PrintableIfReadsBack` | internal/grant/grant.go:102-219 | its necessary half, from the length of the printed line |
| `GrantExact.WordTakesOver` | internal/grant/grant.go:137-143 | an argument that is itself a capability word is lost on reading back |
| `GrantAlike.PrintedAlike` | internal/grant/grant.go:185-219 | two grants print alike exactly when they hold the same capabilities with the same arguments, provided each argument shows where it ends: listed targets without a blank that are not a later capability's word, a path that is not one either, and no path or command argument with both kinds of quote |
| `GrantAlike.QuoteInjective` | internal/grant/grant.go:429-440 | quoteField never gives two fields one form |
| `GrantAlike.BlankCollides` | internal/grant/grant.go:185-219 | a target with blanks prints as a target and another capability |
| `GrantAlike.WordCollides` | internal/grant/grant.go:185-219 | a target that is a later word prints as that capability |
| `GrantAlike.PathCollides` | internal/grant/grant.go:185-219 | a path with both kinds of quote prints as a path and a command |
| `GrantAlike.ArgumentsCollide` | internal/grant/grant.go:414-440 | a command argument with both kinds of quote prints as two |
| `GrantAlike.CollidingLines` | internal/grant/grant.go:102-181 | two lines a link file may hold that read as grants printed alike |
| `Allowlist.ParseList` | internal/allowlist/allowlist.go:29-39 | one bad entry fails the whole list |
| `Allowlist.FindPermitting` | internal/allowlist/allowlist.go:84-98 | the search loop permits exactly what some entry permits, or everything when empty |
| `Allowlist.SplitHostPortInvertsJoin` | internal/allowlist/allowlist.go:46-54 | a plain host and port joined by a colon split back |
| `Allowlist.PermitsTargetIffWithin` | internal/allowlist/allowlist.go:41-114 | a target is permitted exactly when every host and port it reaches, read as an entry, is permitted |
| `Allowlist.SomeHostUnreached` | internal/allowlist/allowlist.go:84-98 | a list that restricts anything leaves some host out altogether |
| `AllowlistReach.HostsAlike` | internal/allowlist/allowlist.go:66-72 | two names are one host exactly when they differ in case and a final dot at most |
| `AllowlistReach.EntryRead` | internal/allowlist/allowlist.go:41-64 | an entry is read as its host, brackets aside, and its port, which must be from 1 to 65535 |
| `AllowlistReach.PermittedIff` | internal/allowlist/allowlist.go:77-114 | a list permits a target exactly when it is empty, or an entry names the same host and no port or the same one |
| `AllowlistReach.SomePortUnreached` | internal/allowlist/allowlist.go:77-98 | a list whose entries all name a port leaves some port out on every host |
| `AllowlistReach.BadPortRefused` | internal/allowlist/allowlist.go:56-62 | a port that is no number fails its entry, and so does a port without a host |
| `AllowlistReach.NeedsBracketsRefused` | internal/allowlist/allowlist.go:47-54 | an address without brackets is no entry |
| `AllowlistReach.TrimmedFirst` | internal/allowlist/allowlist.go:41-72 | white space around an entry or a host is no part of it, and alone it is no entry |
| `AllowlistReach.UnreadTargetRefused` | internal/allowlist/allowlist.go:100-114 | a target whose port is no number is permitted by no list that restricts anything |
| `AllowlistReach.EmptyPermitsAll` | internal/allowlist/allowlist.go:77-103 | an empty list permits any target |
| `AllowlistReach.StrayBracketsRefused` | internal/allowlist/allowlist.go:46-54 | brackets stand around the host and nowhere else |
| `AllowlistReach.OneBadEntry` | internal/allowlist/allowlist.go:29-39 | the first bad entry fails its whole list |
| `GrantNarrow.WithinIffPrefix` | internal/grant/grant.go:341-355 | a path is inside another exactly when the other's cleaned components begin it, so .. cannot masquerade |
| `GrantNarrow.AbsCleans` | internal/grant/grant.go:341-350 | a path made absolute holds no empty, . or .. component |
| `GrantNarrow.CleanOne` | internal/grant/grant.go:341-350 | what one component does to a path: nothing for a dot, the last one away for two, else itself added |
| `GrantNarrow.CleanParts` | internal/grant/grant.go:341-350 | a path is cleaned component by component |
| `GrantNarrow.AbsPlain` | internal/grant/grant.go:341-350 | a rooted path of plain components is itself, and any other lies under the working directory, if that is known |
| `GrantNarrow.BadOfferRefuses` | internal/grant/grant.go:325-328 | an offer whose own targets do not parse accepts no target |
| `GrantNarrow.NarrowScopes` | internal/grant/grant.go:259-269 | the loop grants the asked capabilities and refuses at the first that is not served |
| `GrantNarrow.NarrowList` | internal/grant/grant.go:318-336 | the loop keeps the link's targets or names the first that is outside |
| `GrantNarrow.AcceptedIffWithin` | internal/grant/grant.go:318-336 | targets are accepted exactly when everything they reach is reached by the offer |
| `GrantNarrow.TargetsCeiling` | internal/grant/grant.go:318-336 | what a narrowed link reaches lies within the offer exactly when its targets parse |
| `GrantNarrow.UnparsedTargetReachesAll` | internal/allowlist/allowlist.go:84-114 | accepted targets that do not parse exist, and the list a session builds from them restricts nothing |
| `GrantNarrow.PathCeiling` | internal/grant/grant.go:287-297 | an accepted path lies within what the listener shares, its path or the working directory, exactly when the link names none, or the offer names one, or the link's lies in the working directory |
| `GrantNarrow.NarrowIsCeiling` | internal/grant/grant.go:251-313 | capabilities, a pinned command, files and every host:port of the result lie within the offer exactly when the targets parse where the offer lists any, and no files are granted on an unchecked path outside the working directory |
| `GrantNarrow.WrittenLinkCeiling` | internal/links/terms.go:105-120 | the same, both ways, for any grant line |
| `GrantNarrow.PathLeavesWorkingDirectory` | internal/grant/grant.go:287-297 | an offer of files without a path accepts every link path outside the working directory it shares |
| `GrantNarrow.EtcIsAccepted` | internal/grant/grant.go:287-297 | from /srv, a link to /etc is one |
| `GrantNarrow.WithinTrans` | internal/grant/grant.go:244-250 | a chain of narrowings stays under the first ceiling |
| `GrantNarrow.AcceptedIff` | internal/grant/grant.go:251-336 | a link is accepted exactly when each part of it lies within the offer |
| `GrantNarrow.NarrowTakesAway` | internal/grant/grant.go:244-313 | a link may only take away: the result holds its capabilities and the arguments it names, and the listener's only where it names none |
| `GrantNarrow.EffectiveTakesAway` | internal/links/terms.go:105-120 | so does what a link of the file resolves to, which lies under the link's own path and targets |
| `GrantNarrow.NarrowTwice` | internal/grant/grant.go:251-336 | narrowing the result again returns it unchanged |
| `GrantNarrow.EffectiveCaps` | internal/links/terms.go:105-120 | a link keeps the capabilities that overlap, possibly none; only an unspecified one takes all |
| `GrantNarrow.WordsAloneResolve` | internal/grant/grant.go:230-257 | a link of capability words alone is never refused |
| `GrantNarrow.SameReachIff` | internal/links/terms.go:96-103 | two grant lines that resolve count as the same exactly when they resolve to the same capabilities with the same arguments as written, provided that in both lines and the offer each argument shows where it ends, as for PrintedAlike |
| `GrantNarrow.LostCapabilityCountsAsSame` | internal/links/terms.go:96-103 | without the proviso, a line that lost forward counts as the same as one that has it |
| `GrantNarrow.ReorderedCountsAsDifferent` | internal/links/terms.go:96-103 | two orders of the same targets reach the same and do not print alike |
| `LinkTable.DedupeCodes` | internal/links/table.go:180-207 | the two loops clear exactly the codes held by two rows or by the identity, one conflict for each |
| `LinkTable.RetireExpired` | internal/links/table.go:223-234 | the loop clears the codes of lapsed rows and names them in order |
| `LinkTable.Mint` | internal/links/table.go:243-258 | the loop gives each live codeless row the generator's next code, or fails, and names the rows that got one in order |
| `LinkTable.Build` | internal/links/table.go:36-82 | a table is built exactly when labels, the owner's included, are distinct; the error names a clash |
| `LinkTable.FindByCode` | internal/links/table.go:114-124 | first match, and never for the empty code |
| `LinkTable.FindByName` | internal/links/table.go:95-102 | first match by label |
| `LinkTable.Authorize` | internal/links/table.go:132-150 | the last match decides; where codes are distinct this is ByCode and then Check |
| `LinkTable.PreparedTable` | internal/links/table.go:180-258 | after dedupe, retire, mint: codes distinct and not the identity's, live rows exactly those with a code, a code kept exactly when live and unshared, all else unchanged |
| `LinkTable.PreparedRowsDistinct` | internal/links/table.go:36-82 | on every table built from that, each code resolves to one row, for every code and instant |
| `LinkTable.PreparedTwice` | internal/links/table.go:180-258 | the passes leave nothing for themselves to do |
| `LinkTable.PassesCommuteIff` | internal/links/table.go:180-234 | clearing shared codes and retiring commute exactly when no live row shares its code with expired rows only |
| `LinkTable.PassesDoNotCommute` | cmd/bitbang/serve_links.go:93-99 | an expired row and a live copy: in the other order the live row keeps the expired one's code |
| `LinkTable.LookupPrepared` | internal/links/table.go:104-124 | a code in use before resolves to the row that held it live and alone, or to none |
| `LinkState.Listener.ReloadTable` | cmd/bitbang/serve_links.go:72-149 | read, passes, save if anything counts as changed, build, swap; any failure keeps the table |
| `LinkState.Listener.MutateTable` | cmd/bitbang/serve_links.go:304-344 | read, edit, passes, save, build, swap |
| `LinkState.Listener.InstallRows` | cmd/bitbang/serve_links.go:325-342 | the file is written before the table is built |
| `LinkState.AddRow` | cmd/bitbang/serve_links.go:347-366 | a new link comes without a code, and not under a label in use |
| `LinkState.RemoveRow` | cmd/bitbang/serve_links.go:371-390 | the loop drops every row of the label |
| `LinkState.ReplaceRow` | cmd/bitbang/serve_links.go:394-420 | the loop swaps the row in place and carries its code across |
| `LinkState.ServePeer.Grant` | cmd/bitbang/serve_peer.go:54-59 | the session keeps the label and the terms it was admitted on |
| `LinkState.PollPeers` | cmd/bitbang/serve_peer.go:157-191 | the loop closes exactly the sessions whose verdict says so, with that reason |
| `LinkState.SameGrantsIff` | internal/links/terms.go:96-103 | the poll's comparison tells effective grants apart under that proviso |
| `LinkState.LostCapabilityKeepsSession` | cmd/bitbang/serve_peer.go:157-191 | a session keeps forward when its link's line no longer grants it but prints as before |
| `LinkState.TableAlwaysOk` | cmd/bitbang/serve_links.go:24-33 | over every sequence of edits, reloads and outside writes, failing or not, the table in force has the owner first and distinct labels and codes |
| `LinkState.ReloadedFile` | cmd/bitbang/serve_links.go:102-135 | after a reload the file holds the table's rows, except that an expired row keeps the identity's code on disk |
| `LinkState.SurvivesIff` | cmd/bitbang/serve_peer.go:157-191 | a session outlives an edit and a poll exactly when one live row of the edited file holds its code alone, still holds, and grants the same |
| `LinkState.RemovalRevokes` | cmd/bitbang/serve_links.go:371-390 | removing a link whose code no other label holds revokes every session that presented it |
| `LinkState.CopyOutlivesRemoval` | cmd/bitbang/serve_links.go:371-390 | a live copy of the row under another label keeps the code and the session |
| `LinkState.RenameKeepsSessions` | cmd/bitbang/serve_links.go:390-420 | renaming a link or moving its expiry closes no session its grant would admit |
| `LinkState.RenewalJudgedOnNewTerms` | cmd/bitbang/serve_links.go:313-321 | a replaced row keeps its code exactly when the new terms hold, even where the old ones had lapsed |
| `LinkState.OwnerStays` | internal/links/table.go:36-38 | the owner's sessions are never closed by the poll |
| `LinkEdits.MintedIff` | internal/links/table.go:243-258 | minting succeeds exactly when the generator does, once for each live row without a code |
| `LinkEdits.AddedLinkListed` | cmd/bitbang/serve_links.go:347-366 | a link added is in the table, last, with its grant and expiry and, if live, a code of its own; every link before it keeps its row |
| `LinkEdits.EditedRowsListed` | cmd/bitbang/serve_links.go:304-344 | the rows any edit leaves, each with its code as due |
| `LinkEdits.WithoutParts` | cmd/bitbang/serve_links.go:371-390 | removing drops the rows of the label and no other, in order |
| `LinkEdits.EditSucceedsIff` | cmd/bitbang/serve_links.go:304-344 | exactly when an edit is installed |
| `LinkEdits.LoadedIff` | cmd/bitbang/serve_links.go:72-89 | a file is read exactly when every link has a label that is not blank and a grant that can be read |
| `LinkEdits.FailedEditLeaves` | cmd/bitbang/serve_links.go:313-344 | an edit not installed leaves the table; the file too, unless only the labels were wrong |
| `LinkEdits.ReloadSucceedsIff` | cmd/bitbang/serve_links.go:72-149 | exactly when a reload is installed, and that the table then holds the file's rows, each with its code as due |
| `LinkEdits.ToldWhy` | cmd/bitbang/serve_peer.go:136-147 | a session whose code is gone is told revoked, expired or reissued, as its label's row says |
| `LinkEdits.JudgedByRow` | cmd/bitbang/serve_peer.go:161-190 | a session whose code is on a row is told expired or changed as that row is, and one granted nothing yet is left alone |
| `LinkEdits.RemovalTold` | cmd/bitbang/serve_peer.go:157-180 | a session whose link was removed is told it was revoked |
| `WebSocket.WriteMessage` | internal/streamtype/websocket.go:224-260 | the loop, reusing one buffer, sends exactly the fragments of the tagged message, or those before the source or the stream fails |
| `WebSocket.FillBuffer` | internal/streamtype/websocket.go:229-243 | one pass fills the buffer from the type byte and the reader |
| `WebSocket.ReadFull` | internal/streamtype/websocket.go:239-242 | reads as much as fits or is left, and nothing before the start |
| `WebSocket.Stream.WriteFragment` | internal/streamtype/websocket.go:280-320 | opens a writer on the first fragment, refuses a missing or bad type, closes it after the last; an upstream that fails to open, to write or to close leaves what the code leaves and delivers nothing |
| `WebSocket.FragmentsShape` | internal/streamtype/websocket.go:224-260 | the number of fragments is the ceiling of (length + 1) / 32768; all but the last are full and flagged MORE; together they are the message |
| `WebSocket.OutgoingIsPrefix` | internal/streamtype/websocket.go:224-260 | what goes out is the beginning of the fragments: all of a whole message, all but the last of a broken one, within what the stream accepts |
| `WebSocket.FragmentIff` | internal/streamtype/websocket.go:280-320 | when a fragment is taken, and why not |
| `WebSocket.FaultReported` | internal/streamtype/websocket.go:301-320 | an upstream that fails is reported exactly when it was needed, and what is then open |
| `WebSocket.MessagesRoundTrip` | internal/streamtype/websocket.go:224-320 | any messages, fragmented, built, parsed and written on, arrive with the same types and bytes, the writer closed |
| `WebSocket.CutMessageDeliversNothing` | internal/streamtype/websocket.go:239-257 | a message cut short never passes for a message |
| `Readiness.Session.HandleConnect` | internal/session/control.go:91-135 | routing and version first, the PIN gate before any handler, ready only when all accept |
| `Readiness.Session.HandleAuth` | internal/session/control.go:155-201 | ready on the right PIN when all handlers accept; wrong PINs are counted and the third closes the channel |
| `Readiness.Session.NotifyHandlers` | internal/session/control.go:144-153 | in whatever order, the session may proceed exactly when no handler refuses |
| `Readiness.Session.HandleSyn` | internal/session/session.go:140-200 | no stream before ready; a duplicate resets, an unknown type is rejected |
| `Readiness.ReadyIff` | internal/session/control.go:91-201 | after any inputs the session is ready exactly when one of them was an accepted connect without a PIN, or a right PIN all handlers accepted; no stream before that |
| `Readiness.VersionSettledOnce` | internal/session/control.go:100-107 | the first connect settles the version and nothing changes it |
| `Readiness.StreamsShareMode` | internal/session/control.go:100-107 | all live streams have one flow-control mode exactly when no connect settles the version at 4 or above while streams are open |
| `Readiness.AuthBeforeConnect` | internal/session/control.go:155-182 | with a PIN, authenticating before connecting is a run in which they do not |
| `Readiness.AnsweredInOrder` | internal/session/control.go:91-201 | before close each handshake input is answered by itself, in order; wrong PINs are counted, and the third closes the channel |
| `Readiness.LeavesIff` | internal/session/session.go:140-200 | a stream that ends leaves the table alone, and closing empties it for good |
| `Readiness.RoutedByLast` | internal/session/control.go:91-99 | the session is routed by its last connect |
| `Readiness.EntersIff` | internal/session/session.go:140-200 | a stream enters the table exactly when the session is ready, its ID free and its type served; a duplicate takes the stream out; nothing else is touched |
| `ShareSlots.RoleSlots.Acquire` | internal/share/worker_peer.go:216-223 | takes a slot while the pool has one |
| `ShareSlots.RoleSlots.Release` | internal/share/worker_peer.go:224-230 | gives it back, once |
| `ShareSlots.ControlSlot.Take` | internal/share/worker_peer.go:170-188 | installs the newcomer and reports whom it displaced |
| `ShareSlots.ControlSlot.Release` | internal/share/worker_peer.go:177-188 | once, and only while the slot is still this peer's |
| `ShareSlots.SharePeer.HoldRelease` | internal/share/worker_peer.go:44-54 | the peer carries the reservation unless torn down |
| `ShareSlots.SharePeer.TearDown` | internal/share/worker_peer.go:115-133 | takes every release, once |
| `ShareSlots.SlotAccounting` | internal/share/worker_peer.go:196-231 | under every order of admission, hold, teardown and release the pool counts the viewers not yet given back, within its size, and every reservation is in exactly one place |
| `ShareSlots.ReturnedOnce` | internal/share/worker_peer.go:44-133 | no release is ever run on a reservation already returned |
| `ShareSlots.AllGivenBack` | internal/share/worker.go:447-454 | when all is torn down and run, the pool is empty and nobody has control |
| `ShareSlots.ReleasedTwice` | internal/share/worker_peer.go:177-230 | a release called again changes nothing |
| `ShareSlots.LateReleaseKeepsNewer` | internal/share/worker_peer.go:178-187 | a displaced controller's late release never clears a newer holder |
| `ShellAdmissions.OldestDisplaceable` | internal/streamtype/shell.go:109-116 | the oldest shell this caller may displace, or none |
| `ShellAdmissions.Admissions.FindDisplaceable` | internal/streamtype/shell.go:109-116 | the loop finds it |
| `ShellAdmissions.Admissions.AdmitShell` | internal/streamtype/shell.go:89-104 | splices the displaced shell out and appends the newcomer, or refuses and changes nothing |
| `ShellAdmissions.Admissions.ReleaseShell` | internal/streamtype/shell.go:120-129 | splices the first occurrence out |
| `ShellAdmissions.ShellsBounded` | internal/streamtype/shell.go:89-129 | after any calls the list is in admission order and within a fixed positive limit |
| `ShellAdmissions.WhoIsDisplaced` | internal/streamtype/shell.go:73-104 | only the oldest displaceable shell goes, an owner's only for the owner, and an arrival is refused exactly when every live shell of a full list is the owner's |
| `ShellAdmissions.LateReleaseIsNoOp` | internal/streamtype/shell.go:77-82 | releasing a displaced shell later, whatever came between, changes nothing |
| `ShellAdmissions.ArrivalIsNewest` | internal/streamtype/shell.go:89-104 | an admitted arrival is live, as the newest, under its own flag, beside all it did not displace |
| `ShellAdmissions.LeaveTakesOne` | internal/streamtype/shell.go:120-129 | a departure takes that shell alone |
| `ShellAdmissions.FlagsKept` | internal/streamtype/shell.go:89-129 | after any calls every live shell carries the flag of the arrival it was admitted for |
| `Devices.AutoDeviceName` | cmd/bitbang/devices.go:173-180 | the search ends within one try more than there are rows, at the least free number |
| `Devices.AutoTakenBound` | cmd/bitbang/devices.go:171-180 | the pigeonhole behind it: no more automatic names are taken than there are rows |
| `Devices.FindName` | cmd/bitbang/devices.go:159-169 | a name is taken exactly when some row has it up to case |
| `Devices.DeviceFile.RecordDevice` | cmd/bitbang/devices.go:193-243 | what each call leaves in the file and returns, unreadable, corrupt and unwritable files included |
| `Devices.RecordKeeps` | cmd/bitbang/devices.go:193-243 | a recorded name finds its host with the new credentials, no other row changes, UIDs and names stay unique |
| `Devices.RecordedIff` | cmd/bitbang/devices.go:193-243 | exactly when a known host, and a new one, is recorded |
| `Devices.NamesStandApart` | cmd/bitbang/devices.go:37-42 | a name can be taken neither for a pair code nor for a URL or UID form |
| `Devices.ValidWhateverCase` | cmd/bitbang/devices.go:37-76 | case never makes a name valid or not |
| `Devices.RememberedUntilCorrupt` | cmd/bitbang/devices.go:182-243 | a host recorded stays, under its name, until the file is corrupted |
| `Devices.HistoryUnique` | cmd/bitbang/devices.go:182-243 | from the empty file on, every file ever written, even after one was corrupted, keeps UIDs and case-folded names unique |
| `Devices.ItoaValue` | cmd/bitbang/devices.go:175-175 | reading a printed number gives the number |

## Left out

- Wrap-around of the uint64 byte counters: counters are natural numbers, which agrees with the code while a stream carries fewer than 2^64 - 2^20 bytes; the one unsigned subtraction that could wrap earlier is modelled and shown not to.
- Reuse of a stream ID: each incarnation is a run of its own.
- FlowSystem.CreditOverRuns: runs in which callers write one SYN per stream, as `OpenStream` hands each stream out once; a second SYN is an error at the listener and `ListenerEndpoint.OverRuns` covers it.
- SWSP versions 2 and 3, except as the flag that turns flow control off at the listener, where a failure then announces itself with an empty FIN.
- WebRTC, ICE, SDP, TURN, mDNS and the signaling socket: the channel is assumed reliable, ordered and delivered serially; the keepalive and establishment timers are left to the peer's steps.
- JSON encoding of control messages and files: messages, links and devices are datatypes, a file is read and written whole and may fail, and the modification-time check is one way of failing.
- PIN hashing and constant-time comparison: equality. Code generation: a generator of codes neither in use nor returned before, which may fail.
- Handlers' own behaviour: a handler accepts or refuses each call as it likes.
- FrameQueue.Queue.Publish: the install callback and a later `SetDeliver` are not modelled; the delivery target is always set.
- FrameQueue.Queue.Close: the release callback is the owner's; `ShareSlots.SharePeer.TearDown` models the share's.
- LinkTable.Build: the warnings about links that reach past the listener are not modelled.
- LinkTable.DedupeCodes: conflicts are given by code, not as sorted lists of labels for a message.
- GrantNarrow.WithinIffPrefix: on cleaned absolute paths of component names; symbolic links and the Windows path rules are not modelled.
- GrantSpec.ParseWords: text is a sequence of Unicode scalar values; malformed UTF-8 is not modelled.
- Allowlist.FindPermitting: host names fold ASCII letters only.
- Devices.DeviceFile.RecordDevice: a corrupt file is read as empty; JSON that parses with fields of the wrong type, which the decoder fills in part, is not modelled.
- Devices.FindName: names fold ASCII letters only, which are all the letters a recorded name can hold.
- ShareSlots.LateReleaseKeepsNewer: for peers that take control once each, as buildSession runs once per peer; a peer that took it twice would give it up with its first release.
- The terminal a view slot opens, refusal timers, and ending a displaced shell's process.
- The video bridge, HTTP proxying, the console, QR codes, tmux supervision and file locks: outcomes depend on external processes, or the logic is plumbing.
