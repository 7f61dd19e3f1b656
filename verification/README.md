# LeyoChat: what the stateful components keep

A Dafny model of the parts of the LeyoChat client and of its self-hosted services that carry state
over many calls, with proofs of what they keep over whole runs. The model follows the code; where the
documentation or the names promise more than the code does, the exact condition is proved instead.

| files | component |
|---|---|
| `MessageTables`, `MessageInvariant`, `MessageStore`, `MessageRuns`, `MessageColumns`, `MessageOrigins`, `Retries`, `EventStream`, `Paging` | the durable message store: tables, transactions whose statements may fail, idempotent retries, the event stream and paging |
| `CallSession`, `CallSignals`, `CallPair`, `CallPeers` | call signalling: one session object, and two of them over lossless first-in-first-out links |
| `ScreenStream` | the length-prefixed screen frames and their incremental reader |
| `FileTables`, `DocumentKeys`, `FileServer` | file versions with four writers, DELETE, the blob store, and the keys of the document editor |
| `Presence`, `PresenceRuns`, `PresenceStories`, `PresenceRoutes` | the session registry, its agreement with the log over whole runs, and the routes that write its online and offline events |
| `RateLimit` | the fixed-window request limiter |
| `ChatCleanup`, `Supervisor`, `FanOut`, `AzureSettings`, `AzureEntries`, `Chunks` | the chat-file cleanup, the restart supervisor, batched group delivery, Azure DevOps settings, transfer chunks |
| `Sql`, `Text`, `Lists` | ordering and limits of queries; trimming and joined keys; lists without blanks and repetitions ignoring case |

How to read it. Each SQL statement or disk operation is an atomic step that fails when it is listed in
the `faults` of a call. A transaction works on a local copy; COMMIT assigns it and ROLLBACK drops it.
Each method that changes state is tied to a specification function of the old state, and the results
over whole runs are lemmas about those functions. Identifiers that the code draws at random are
parameters required to be fresh. The clock is a parameter, positive and never running backwards.

Where code and expectation differ, these are the exact conditions proved:

- `nextVersionNumber` answers 1 when its query fails, and no index makes numbers unique. A version gets
  the right number if and only if that query succeeds or the file has no version yet.
- WOPI PutFile and the editor callback do not look at the answers of BEGIN and COMMIT. If BEGIN and the
  UPDATE fail, the row stays without becoming current, and the same document key can create a second
  version. If COMMIT fails, success is reported although nothing is committed; the model takes the
  transaction as dropped, while SQLite may keep it open on the connection (see "Left out").
- The editor callback compares its key before the download and not afterwards. A callback that has passed
  the check creates a version under a key that is out of date by then exactly when another writer added a
  version to the file, or deleted it, during the download. Nothing else creates one under such a key.
- A save leaves a version row without a file exactly when the file was deleted during the download.
- After the first read acknowledgement the log holds a delivered event exactly when the row had been
  acknowledged as delivered before.
- A page of the event stream holds message events only of conversations in which the client has sent or been
  addressed, except those of a conversation that is itself named `__sessions__`.
- With nothing under way, the two ends of a call disagree exactly when it was answered and cancelled and
  nobody has hung up.
- The reason of a cancelled call is always `no_answer`.
- An offer that reaches a busy session is answered with Busy exactly if it does not carry another call's id.
- Log and registry of sessions agree until INSERT or UPDATE of an event that is due fails, or the capabilities
  of a new session cannot be saved, and never again after that.
- Two different clients that the registry accepts share a session exactly when their key can be cut into three
  trimmed, non-empty ids in another way; without a pipe in workspace and client ids it cannot.
- The bytes that the cleanup reports as freed are right exactly when no file with bytes was counted whose
  DELETE failed.
- Normalising the Azure DevOps settings needs a second pass exactly when a project is set without an
  organisation and the first listed organisation lacks it.

`dafny verify dfyconfig.toml` checks the whole project.

## Model

| member | source | states |
|---|---|---|
| `MessageStore.MessageServiceDatabase.StoreMessage` | src/fileservice/MessageServiceDatabase.cpp:429-616 | success commits exactly one store step and returns the stored or the already known message; failure, at whichever statement, leaves the tables as they were; without a failing statement every acceptable request succeeds |
| `MessageStore.MessageServiceDatabase.MarkDelivered` | src/fileservice/MessageServiceDatabase.cpp:1136-1189 | an acknowledgement moves one row, one cursor and at most one event in one commit, or changes nothing; it fails only for a fault or an unknown (message, recipient) |
| `MessageStore.MessageServiceDatabase.MarkRead` | src/fileservice/MessageServiceDatabase.cpp:1191-1245 | as for the delivery acknowledgement, with the read state, both cursor columns and the read event |
| `MessageStore.MessageServiceDatabase.AppendSessionStatusEvent` | src/fileservice/MessageServiceDatabase.cpp:651-684 | an append outside a transaction leaves a complete row, a used-up id, an unfilled row or nothing, exactly as its failing statements say, and the invariant of the tables in every case |
| `MessageStore.NormalizedRecipients` | src/fileservice/MessageServiceDatabase.cpp:140-153 | the loop computes the recipient list whose exact content is stated by the next row |
| `MessageTables.RecipientsAreExact` | src/fileservice/MessageServiceDatabase.cpp:140-153 | the list holds every trimmed, non-empty recipient other than the sender, each once, and nothing else |
| `MessageStore.AppendEventWithPayload` | src/fileservice/MessageServiceDatabase.cpp:686-756 | insert, fill in, and undo on failure: a blank field or failing INSERT leaves nothing, a working UPDATE a complete event, otherwise the failing DELETE an unfilled row and the working one a used-up id |
| `MessageStore.AddRecipients` | src/fileservice/MessageServiceDatabase.cpp:474-504 | the loop over recipients upserts members and inserts missing deliveries, counts exactly the new ones, and gives up at the first failing statement |
| `MessageStore.MergeRetry` | src/fileservice/MessageServiceDatabase.cpp:456-521 | a retry with the same content adds the missing recipients and announces the message again exactly when somebody was added |
| `MessageStore.InsertMessageRow` | src/fileservice/MessageServiceDatabase.cpp:526-556 | short of a fault, a row numbered 1 or next is accepted if and only if with it the conversations stay numbered and ids and keys stay distinct |
| `MessageStore.FreshKeys` | src/fileservice/MessageServiceDatabase.cpp:285-301 | the PRIMARY KEY and the key of sender and client id accept exactly the rows that keep both distinct |
| `MessageStore.NextRowOnly` | src/fileservice/MessageServiceDatabase.cpp:1344-1355 | a row keeps the conversations numbered if and only if it carries the next number of its own |
| `MessageStore.TakenNumbers` | src/fileservice/MessageServiceDatabase.cpp:1344-1355 | when the query for the next number fails and answers 1, the UNIQUE index refuses the row exactly if the conversation already has messages |
| `MessageStore.InsertNew` | src/fileservice/MessageServiceDatabase.cpp:523-616 | a first store inserts the row, the sender, all recipients with their deliveries, and one created event, or nothing |
| `MessageStore.AckTransaction` | src/fileservice/MessageServiceDatabase.cpp:1154-1189 | row, cursor and event of an acknowledgement are committed together |
| `MessageTables.MaxSeqIsLength` | src/fileservice/MessageServiceDatabase.cpp:1344-1355 | in a numbered conversation MAX(server_seq) is the number of its messages, so the next number is n + 1 |
| `MessageInvariant.StoreKeepsInv` | src/fileservice/MessageServiceDatabase.cpp:429-616 | a store or retry keeps numbering, keys, deliveries, roles, log and cursors |
| `MessageInvariant.DeliveredKeepsInv` | src/fileservice/MessageServiceDatabase.cpp:1136-1189 | a delivery acknowledgement keeps the invariant, whatever sequence number the client sends |
| `MessageInvariant.ReadKeepsInv` | src/fileservice/MessageServiceDatabase.cpp:1191-1245 | a read acknowledgement keeps the invariant, whatever sequence number the client sends |
| `MessageInvariant.SessionEventKeepsInv` | src/fileservice/MessageServiceDatabase.cpp:686-756 | a session event keeps the invariant, even if it is left unfilled |
| `MessageRuns.RunKeepsInv` | src/fileservice/MessageServiceDatabase.cpp:429-616 | the invariant holds after every run of stores, retries, acknowledgements, session events and failed calls |
| `MessageRuns.StoreOfEveryRun` | src/fileservice/MessageServiceDatabase.cpp:1344-1384 | after every run: sequence numbers are exactly 1..n per conversation, keys are unique, recipients are members and not the sender, role `sender` means having sent there |
| `MessageRuns.AcksOfEveryRun` | src/fileservice/MessageServiceDatabase.cpp:1136-1245 | after every run: exactly one read event if and only if the row is read, at most one delivered event, never after the read event, and timestamps that agree with the state |
| `MessageRuns.RunAdvances` | src/fileservice/MessageServiceDatabase.cpp:1386-1414 | over every run: messages and events are only appended, states and both cursors never go back, a delivery time is set once, members stay |
| `MessageRuns.ReadSuppressesDelivered` | src/fileservice/MessageServiceDatabase.cpp:1191-1245 | a read row without a delivered event never gets one |
| `MessageRuns.DeliveredEventAfterRead` | src/fileservice/MessageServiceDatabase.cpp:1191-1245 | after the first read acknowledgement and whatever follows, the log holds a delivered event if and only if the row had been acknowledged as delivered before |
| `MessageRuns.ReadFirstHidesDelivered` | src/fileservice/MessageServiceDatabase.cpp:1154-1155 | this occurs: store, read, late delivery acknowledgement end with a read event and no delivered event |
| `MessageRuns.ApplyLogs` | src/fileservice/MessageServiceDatabase.cpp:585-606 | each call appends exactly the events that it owes |
| `MessageColumns.FirstStoreWrites` | src/fileservice/MessageServiceDatabase.cpp:523-606 | column by column: the message row with the next number, pending rows exactly for those addressed, who becomes a member in which role and since when, and the one created event; nothing else |
| `MessageColumns.RetryWrites` | src/fileservice/MessageServiceDatabase.cpp:474-521 | the same for a retry whose columns all agree: missing rows and members, and a created event exactly if a row was missing |
| `MessageColumns.DifferentContentWritesNothing` | src/fileservice/MessageServiceDatabase.cpp:456-474 | a known key with any different column (conversation, workspace, type, body, payload, file, content type or reply) touches no table, whoever the request names |
| `MessageColumns.RefusedStoreWritesNothing` | src/fileservice/MessageServiceDatabase.cpp:429-455 | an incomplete request, one addressed to nobody but its sender, or a server id that is taken touches no table |
| `MessageColumns.DeliveredAckWrites` | src/fileservice/MessageServiceDatabase.cpp:1136-1189 | column by column: state and time of the row, the received column of the cursor up to the number given, and the delivered event exactly if the row was pending |
| `MessageColumns.ReadAckWrites` | src/fileservice/MessageServiceDatabase.cpp:1191-1245 | the same for a read: both columns of the cursor, both times of the row, and the read event exactly if the row was not read |
| `MessageColumns.UnknownAckWritesNothing` | src/fileservice/MessageServiceDatabase.cpp:1136-1153 | an acknowledgement of a message that is unknown or not addressed to the client touches no table |
| `MessageColumns.SessionEventWrites` | src/fileservice/MessageServiceDatabase.cpp:651-684 | a session event touches the log alone, in the reserved conversation of its workspace |
| `MessageOrigins.CursorsOfEveryRun` | src/fileservice/MessageServiceDatabase.cpp:1386-1414 | after every run a client has a cursor in a conversation exactly if it acknowledged something there, and the columns are the largest number it acknowledged, and acknowledged as read, or 0 |
| `MessageOrigins.MembersOfEveryRun` | src/fileservice/MessageServiceDatabase.cpp:1356-1384 | after every run the members of a conversation are exactly those who have sent or been addressed in it |
| `MessageOrigins.EventsOfEveryRun` | src/fileservice/MessageServiceDatabase.cpp:686-756 | after every run each message event repeats the columns of a stored message of its workspace and conversation, each acknowledgement belongs to a delivery row, and every other event is in the reserved conversation |
| `Retries.RetryIdempotence` | src/fileservice/MessageServiceDatabase.cpp:456-521 | from the first store on and with anything in between: the same row with the same server id and number, recipients equal to the union of all calls, created events equal to one plus the retries that added somebody |
| `Retries.RetriesConverge` | src/fileservice/MessageServiceDatabase.cpp:474-521 | the same for any stored message and any later run |
| `Retries.FirstStore` | src/fileservice/MessageServiceDatabase.cpp:523-616 | a first store creates one row, one created event and exactly its own recipients |
| `EventStream.EventPageIsPrefix` | src/fileservice/MessageServiceDatabase.cpp:817-859 | a page is the oldest part of what the client may see beyond its cursor, in order of event id and within the limit |
| `EventStream.PageIsExact` | src/fileservice/MessageServiceDatabase.cpp:817-859 | spelled out: only events of the workspace beyond the cursor, in the reserved conversation or one the client is a member of, in order of id, at most 1 to 500 as the limit says, and whatever such event is left out has a larger id and the page is full |
| `EventStream.MaxEventId` | src/fileservice/MessageServiceHttpRoutes.cpp:341-349 | the loop returns the largest id of the page, and never less than the cursor |
| `EventStream.PollLosesNothing` | src/fileservice/MessageServiceHttpRoutes.cpp:904-917 | following the largest returned id skips no event that the client can see |
| `EventStream.CallLosesNothing` | src/fileservice/MessageServiceDatabase.cpp:456-511 | whatever a call adds, a new delivery row comes with a created event beyond every cursor, and what was visible stays visible |
| `EventStream.NoLostNotification` | src/fileservice/MessageServiceDatabase.cpp:817-859 | over every interleaving of stores, retries, acknowledgements and polls: each delivery row ever addressed to the client has a created event already returned or still ahead |
| `EventStream.OnlyTheInvolvedSee` | src/fileservice/MessageServiceDatabase.cpp:828-843 | the other direction, after every run: an event on a page of a client is of its workspace, belongs to a stored message if it is no session event, and is in a conversation where the client has sent or been addressed, unless that carries the reserved name |
| `EventStream.PollMakesProgress` | src/fileservice/MessageServiceDatabase.cpp:817-859 | a poll with events ahead returns one and leaves fewer ahead |
| `EventStream.PollingCatchesUp` | src/fileservice/MessageServiceDatabase.cpp:817-859 | once stores stop, polling delivers every notification, for any limits |
| `Paging.PageCursor` | src/fileservice/MessageServiceHttpContracts.cpp:198-211 | the loop computes the cursor of a page: the last sequence number, or 0 for an empty page |
| `Paging.PageIsStretch` | src/fileservice/MessageServiceDatabase.cpp:880-905 | a page is the stretch of the conversation right after the cursor |
| `Paging.PagesAreContiguous` | src/fileservice/MessageServiceDatabase.cpp:880-905 | pages fetched one after the other join without gap or overlap, also when messages are stored in between |
| `Paging.PagingIsComplete` | src/fileservice/MessageServiceHttpContracts.cpp:198-211 | at the first empty page everything above the start has been collected once, in order, for any limits |
| `Paging.FetchingEnds` | src/fileservice/MessageServiceDatabase.cpp:880-905 | once stores stop, as many fetches as there are messages reach the empty page |
| `Paging.EmptyPageRewinds` | src/fileservice/MessageServiceHttpContracts.cpp:198-211 | following the cursor of an empty page would start again from the beginning |
| `CallSessions.CallSession.StartCall` | src/call/CallSession.cpp:54-73 | the object does exactly what the step function says |
| `CallSessions.CallSession.HandleIncomingOffer` | src/call/CallSession.cpp:75-92 | the object does exactly what the step function says |
| `CallSessions.CallSession.CancelCall` | src/call/CallSession.cpp:128-152 | the object does exactly what the step function says, through the stop of the timer |
| `CallSessions.CallSession.HangupCall` | src/call/CallSession.cpp:154-175 | the object does exactly what the step function says |
| `CallSessions.CallSession.OnRingTimeout` | src/call/CallSession.cpp:9-20 | an expired ring timer cancels an outgoing and rejects an incoming call |
| `CallSessions.CallSession.HandleEndOrAnswer` | src/call/CallSession.cpp:269-316 | answers, refusals and the end of a call, as the step function says |
| `CallSessions.CallSession.HandleCallControl` | src/call/CallSession.cpp:255-360 | every payload is handled as the step function says, including those dropped because they name another call |
| `CallSessions.DoKeepsSessionOk` | src/call/CallSession.cpp:30-253 | the ring timer is armed exactly while ringing, sharing and remote control imply an active call, and an idle session remembers nothing, after every command on any input |
| `CallSessions.EveryRunKeepsSessionOk` | src/call/CallSession.cpp:9-360 | the same after every run of commands |
| `CallSessions.CancelAlwaysSaysNoAnswer` | src/call/CallSession.cpp:128-152 | the reported reason is always `no_answer`, because the timer is stopped before it is asked |
| `CallSessions.BusyIsSentOnlyForTheSameCall` | src/call/CallSession.cpp:255-275 | a busy session answers an offer if and only if the offer does not carry the id of another call |
| `CallSignals.PayloadsAreAddressed` | src/call/CallSession.cpp:54-213 | an offer goes to the peer called, Busy back to whoever made the offer under its id, and everything else to the peer and with the id of the session's call |
| `CallSignals.PayloadsAreDue` | src/call/CallSession.cpp:54-253 | which command in which state sends which payload, and that it is the only one |
| `CallSignals.ListenersKnow` | src/call/CallSession.cpp:30-52 | after every run, whoever hears every signal knows state, muting and remote control of the session |
| `CallSignals.EndsAreTold` | src/call/CallSession.cpp:128-175 | the end of a call is announced once, with its peer, reason and active time; only a call rejected while it rings here ends unannounced |
| `CallSignals.DurationIsTalkTime` | src/call/CallSession.cpp:154-175 | over every run the announced duration is the time since the session became active, or 0 if it never did |
| `CallSignals.OtherSignals` | src/call/CallSession.cpp:276-360 | when exactly media channels, requests for control, sharing and call errors are announced, and with whose data |
| `CallPair.CommandActs` | src/call/CallSession.cpp:54-213 | what a local command can do to the phase of one call, and when it gives the call up |
| `CallPair.CommandNotes` | src/call/CallSession.cpp:94-175 | the history records exactly the cancels, answers and hang-ups among those moves |
| `CallPair.PayloadHeard` | src/call/CallSession.cpp:255-327 | a payload of a call moves its phase as a table says and leaves every other call alone |
| `CallPair.RunKeepsInv` | src/call/CallSession.cpp:54-327 | over lossless links every call stays within one table of phases and payloads under way, for all interleavings with glare, timeouts and cancel races |
| `CallPair.CallerImpliesCallee` | src/call/CallSession.cpp:255-327 | while the caller is connecting or active on a call, so is the callee, or its hang-up is still on the way |
| `CallPair.CalleeImpliesCaller` | src/call/CallSession.cpp:299-309 | the converse with its exception: while the callee talks, so does the caller, or its answer or hang-up is on the way, or the caller cancelled, which it has exactly when it is away with no hang-up on its way |
| `CallPair.QuietEndsAgree` | src/call/CallSession.cpp:255-327 | with nothing under way the two ends agree if and only if the call was not at once answered, cancelled and never hung up; in that case the callee talks and the caller is away |
| `CallPair.CrossingCancelStrandsCallee` | src/call/CallSession.cpp:299-309 | the exception occurs: an answer that crosses a cancel leaves the callee connecting |
| `CallPeers.EveryPayloadReachesItsTarget` | src/call/CallSession.cpp:54-327 | over every run in which calls are made to the other side, each payload on a link is addressed to the side it is delivered to, and both ends of a call are each other's peers and hold its media flags |
| `ScreenStream.ScreenCaptureChannel.SendEncodedFrame` | src/call/ScreenCaptureChannel.cpp:130-143 | what is written is the encoding of the frames that were not skipped, whatever their length, and how far the waiting bytes can grow |
| `ScreenStream.ScreenCaptureChannel.OnNewConnection` | src/call/ScreenCaptureChannel.cpp:66-90 | a viewer is served if there is none, and then its stream starts empty |
| `ScreenStream.SizeRoundTrip` | src/call/ScreenCaptureChannel.cpp:138-141 | the big-endian size is read back, and (next row) every header is the code of its size |
| `ScreenStream.HeaderIsBigEndian` | src/call/ScreenCaptureChannel.cpp:138-141 | the most significant byte of the size comes first |
| `ScreenStream.HeaderRoundTrip` | src/call/ScreenViewerWidget.cpp:73-80 | every four bytes are the code of the size they give |
| `ScreenStream.ReadingIsPrefix` | src/call/ScreenViewerWidget.cpp:73-96 | unique decoding: whole frames read from the beginning of an encoding are the first frames sent, the rest never looks too big, and reading everything gives everything |
| `ScreenStream.ParseFrames` | src/call/ScreenViewerWidget.cpp:73-96 | the loop ends, emits every whole frame in order and keeps the rest; it fails exactly at a header above 10 MB |
| `ScreenStream.ScreenViewer.OnReadyRead` | src/call/ScreenViewerWidget.cpp:57-103 | bytes received are the frames emitted followed by an incomplete one, the buffer stays below 64 KB + 10 MB between calls, and the connection is closed exactly for more than 50 MB or an oversized header |
| `ScreenStream.ScreenViewer.DisconnectFromHost` | src/call/ScreenViewerWidget.cpp:38-44 | what was pending is forgotten |
| `ScreenStream.Receive` | src/call/ScreenViewerWidget.cpp:57-103 | the round trip: any split of the encoding of any frames of at most 10 MB into chunks of at most 40 MB minus 64 KB is read back exactly, without a guard firing; the sizes stand in the contract as numbers |
| `FileServer.FileService.SaveFile` | src/fileservice/FileStorageManager.cpp:18-39 | a new blob, recorded with the bytes handed over, under a path that no row has |
| `FileServer.FileService.DeleteBlob` | src/fileservice/FileStorageManager.cpp:59-65 | only a blob that no row names is removed |
| `FileServer.FileService.PutFile` | src/fileservice/FileServiceHttpServer.cpp:199-262 | upsert: exactly one change, rows and blob together or neither; afterwards the file has the name asked for and the new version is its last and current one, all other files as before; the numbering survives if and only if the number query succeeded or the file is new |
| `FileServer.FileService.PostVersion` | src/fileservice/FileServiceHttpServer.cpp:385-422 | the same for a new version of an existing file |
| `FileServer.FileService.OpenEditor` | src/fileservice/FileServiceHttpServer.cpp:976 | the editor page of a file carries the key of its current version, which is what the next row compares |
| `FileServer.FileService.WopiPutFile` | src/fileservice/WopiHandler.cpp:123-171 | which change each failing statement leads to, with unchecked BEGIN and COMMIT: success without a saved version exactly when COMMIT fails, a stray row exactly when BEGIN and UPDATE fail, and when the numbering survives |
| `FileServer.FileService.CheckCallback` | src/fileservice/OnlyOfficeCallbackHandler.cpp:79-97 | a callback proceeds if and only if its key is file id, underscore and current version id, never with a retired key |
| `FileServer.FileService.SaveCallback` | src/fileservice/OnlyOfficeCallbackHandler.cpp:100-145 | the second half saves what was downloaded under the key of its first half, whether or not that key is still current, or changes nothing but the mutex, under the same exact conditions |
| `FileServer.FileService.DeleteFile` | src/fileservice/FileServiceHttpServer.cpp:710-732 | rows first, then exactly the blobs of that file; all other files keep their rows, their order and their numbering |
| `FileServer.FileService.InsertAndSelect` | src/fileservice/WopiHandler.cpp:140-170 | which change WOPI PutFile and the callback commit under every failure, with the row visible at once when BEGIN failed |
| `FileServer.VersionTransaction` | src/fileservice/FileServiceHttpServer.cpp:220-262 | the transaction of PUT and POST succeeds exactly when no statement fails and a new name is free |
| `FileServer.FindFileByName` | src/fileservice/FileServiceDatabase.cpp:427-449 | finds a file of that name exactly if there is one |
| `FileServer.ChangeKeepsBlobsOk` | src/fileservice/FileServiceDatabase.cpp:295-321 | a committed change leaves every version row with its blob and the bytes saved for it |
| `FileServer.ChangeKeepsNames` | src/fileservice/FileServiceDatabase.cpp:91-93 | no two files of a workspace share a name: the invariant of the service that every writer keeps, a new file exactly if its name is free |
| `FileServer.DeletedPaths` | src/fileservice/FileServiceDatabase.cpp:752-792 | the paths collected before DELETE belong to no remaining row |
| `FileServer.NextNumberIsNext` | src/fileservice/FileServiceDatabase.cpp:451-459 | the number used is the next one if and only if the query did not fail |
| `FileServer.WriteNumbering` | src/fileservice/FileServiceDatabase.cpp:451-459 | which writes keep all files numbered 1..n with number n current |
| `FileTables.MaxNumberIsCount` | src/fileservice/FileServiceDatabase.cpp:451-459 | on a numbered file the largest number is the count |
| `FileTables.NumberingKept` | src/fileservice/FileServiceDatabase.cpp:295-321 | exactly the sound changes keep every file numbered |
| `DocumentKeys.KeyNamesVersion` | src/fileservice/OnlyOfficeCallbackHandler.cpp:95-97 | for one file, equal keys name equal versions |
| `DocumentKeys.StepNumbering` | src/fileservice/FileServiceDatabase.cpp:451-459 | at each step of a run the numbering survives if and only if the committed change is sound |
| `DocumentKeys.RunNumbering` | src/fileservice/FileServiceDatabase.cpp:218-236 | over a run of sound changes every file has versions 1..n and number n is current |
| `DocumentKeys.FailedQueryRepeatsNumber` | src/fileservice/FileServiceDatabase.cpp:451-459 | the numbering does break: after a failing query a file has two versions numbered 1 |
| `DocumentKeys.KeysAreSingleUse` | src/fileservice/OnlyOfficeCallbackHandler.cpp:79-145 | over every interleaving with the other writers, at most one callback per file and key makes its version current |
| `DocumentKeys.RetiredForGood` | src/fileservice/OnlyOfficeCallbackHandler.cpp:89-97 | a key that no longer names the current version never lets a new callback in |
| `DocumentKeys.RetiredCreatesNone` | src/fileservice/OnlyOfficeCallbackHandler.cpp:89-97 | such a key never makes another version current, over every run, unless a callback is already downloading under it |
| `DocumentKeys.RetiredCreatesExactly` | src/fileservice/OnlyOfficeCallbackHandler.cpp:95-145 | some continuation of the run creates a version under such a key if and only if a callback is already downloading under it |
| `DocumentKeys.CurrentUntilOvertaken` | src/fileservice/OnlyOfficeCallbackHandler.cpp:95-97 | over any run a current key stays current if and only if no step adds a version to its file or deletes it |
| `DocumentKeys.SaveUnderStaleKey` | src/fileservice/OnlyOfficeCallbackHandler.cpp:95-145 | whatever happens during a download, the callback can save under its key afterwards, and the key is out of date by then if and only if another writer added a version to the file or deleted it meanwhile |
| `DocumentKeys.OvertakenCallbackSaves` | src/fileservice/OnlyOfficeCallbackHandler.cpp:95-139 | this occurs: a version written during the download does not stop the callback, whose version becomes current |
| `DocumentKeys.KeyReusable` | src/fileservice/OnlyOfficeCallbackHandler.cpp:115-145 | after a callback left a row its key can be used again if and only if that row did not become current and the key still named the current version |
| `DocumentKeys.StrayRowLetsKeyRepeat` | src/fileservice/OnlyOfficeCallbackHandler.cpp:115-145 | this occurs: a failing BEGIN and UPDATE let one key create two versions |
| `DocumentKeys.DeletedDuringDownload` | src/fileservice/OnlyOfficeCallbackHandler.cpp:99-145 | a file deleted during the download leaves the saved version as a row without a file |
| `DocumentKeys.OrphansExactly` | src/fileservice/OnlyOfficeCallbackHandler.cpp:99-145 | a version row without a file comes about if and only if a callback saves a file that is gone by then |
| `Presence.MessageSessionRegistry.Touch` | src/fileservice/MessageSessionRegistry.cpp:110-151 | one session per key: created exactly when the key is new, with the trimmed names of its client, otherwise refreshed under its old id and names; version and capabilities change only with a heartbeat |
| `Presence.NormalizedCapabilities` | src/fileservice/MessageSessionRegistry.cpp:19-33 | capabilities come out trimmed, not blank and distinct ignoring case |
| `Presence.MessageSessionRegistry.TakeExpiredSessions` | src/fileservice/MessageSessionRegistry.cpp:158-175 | the erase loop removes exactly the sessions last seen more than the time to live ago, each once, in whatever order, and counts them |
| `Presence.MessageSessionRegistry.OnlineSessions` | src/fileservice/MessageSessionRegistry.cpp:177-201 | exactly the sessions of the workspace last seen within the time to live, each once, sorted by client, device and session id |
| `Presence.SortedIsInOrder` | src/fileservice/MessageSessionRegistry.cpp:195-199 | sorting keeps the sessions and puts them in lexicographic order |
| `Presence.BeforeIsLexicographic` | src/fileservice/MessageSessionRegistry.cpp:195-199 | names are compared lexicographically |
| `Presence.DevicesAreApart` | src/fileservice/MessageSessionRegistry.cpp:115-128 | without pipes there is one session for each trimmed client, device and workspace, a blank device counting as one named like the client |
| `Presence.ReplayIsRegistry` | src/fileservice/MessageServiceHttpRoutes.cpp:323-339 | where log and registry agree, replaying online and offline events gives exactly the ids in the registry |
| `Presence.ExpiryAgrees` | src/fileservice/MessageServiceHttpRoutes.cpp:323-339 | expiry keeps the agreement if and only if every removed session is announced |
| `Presence.ArrivalAgrees` | src/fileservice/MessageServiceHttpRoutes.cpp:745-751 | a new session keeps the agreement if and only if its online event is written |
| `Presence.ReturnAgrees` | src/fileservice/MessageSessionRegistry.cpp:130-151 | a returning session leaves the agreement as it is |
| `Presence.KeyIdentifies` | src/fileservice/MessageSessionRegistry.cpp:229-236 | session keys tell clients, devices and workspaces apart when workspace and client ids contain no pipe |
| `Presence.KeysCollide` | src/fileservice/MessageSessionRegistry.cpp:229-236 | with a pipe in an id two different triples share a key |
| `Presence.KeyIsShared` | src/fileservice/MessageSessionRegistry.cpp:229-236 | over all strings, a different triple has the same key if and only if one of the three ids contains a pipe; the next three rows are about ids that the registry accepts |
| `Presence.CleanKeyIsShared` | src/fileservice/MessageSessionRegistry.cpp:115-128 | for accepted ids, another accepted triple has the same key if and only if the key can be cut at two other pipes into three trimmed, non-empty parts |
| `Presence.CleanKeysCollide` | src/fileservice/MessageSessionRegistry.cpp:115-128 | a pipe between two trimmed, non-empty parts of a workspace or client id is enough for that |
| `Presence.LonePipeIsPrivate` | src/fileservice/MessageSessionRegistry.cpp:115-128 | a pipe alone is not: such a client shares its key with no other accepted triple |
| `PresenceRuns.AgreementOfEveryRun` | src/fileservice/MessageServiceHttpRoutes.cpp:323-339 | from the empty registry and log, after any run of expiries, arrivals, returns and other calls: they agree if and only if every event that was due has been written, and then a replay of the log gives exactly the ids held |
| `PresenceRuns.ExpiryMove` | src/fileservice/MessageServiceHttpRoutes.cpp:323-339 | an expiry that does not tell of every session it removes drifts, and nothing makes up for a drift |
| `PresenceRuns.ArrivalMove` | src/fileservice/MessageServiceHttpRoutes.cpp:745-751 | the same for a session whose online event is not written |
| `PresenceStories.HeldWhileSeen` | src/fileservice/MessageSessionRegistry.cpp:158-175 | over every run a session that has come online is held if and only if every sweep came within its time to live of the latest request of that session |
| `PresenceStories.StoriesOfEveryRun` | src/fileservice/MessageServiceHttpRoutes.cpp:323-339 | as long as every due event is written, the log names client, device and workspace of every held session, and each offline event those of the online event it ends |
| `PresenceRoutes.AppendExpiredSessionEvents` | src/fileservice/MessageServiceHttpRoutes.cpp:323-339 | one expiry move; log and registry still agree afterwards if and only if, for every expired session, neither INSERT nor UPDATE of its event fails |
| `PresenceRoutes.TouchAndAnnounce` | src/fileservice/MessageServiceHttpRoutes.cpp:729-751 | at most one arrival or return; the agreement is kept if and only if the session is known, or neither the capabilities nor INSERT and UPDATE of its event fail |
| `PresenceRoutes.Heartbeat` | src/fileservice/MessageServiceHttpRoutes.cpp:683-762 | from agreement, log and registry agree after a heartbeat if and only if the events of all expired sessions and, for a new session, capabilities and online event are written; stated over the failing statements and the registry before |
| `PresenceRoutes.Stream` | src/fileservice/MessageServiceHttpRoutes.cpp:898-927 | the same for the event stream; the page is that of the client, and the session remembers its largest event id |
| `PresenceRoutes.SessionsOnline` | src/fileservice/MessageServiceHttpRoutes.cpp:764-809 | the sessions reported for a workspace are those held and, from agreement, all of them online in the log; it answers if and only if the events of all expired sessions are written |
| `PresenceRuns.OtherCallsKeepAgreement` | src/fileservice/MessageServiceDatabase.cpp:429-616 | stores and acknowledgements do not touch the agreement |
| `PresenceRoutes.LostOfflineDrifts` | src/fileservice/MessageServiceHttpRoutes.cpp:331-337 | a failing INSERT of an offline event leaves a session online in the log that the registry no longer holds |
| `PresenceRoutes.LostOnlineDrifts` | src/fileservice/MessageServiceHttpRoutes.cpp:745-751 | a failing INSERT of an online event leaves a session in the registry that the log never saw |
| `RateLimit.MessageServiceOperations.Accept` | src/fileservice/MessageServiceOperations.cpp:32-69 | each request gets the answer that the history before it demands, and is counted and recorded once |
| `RateLimit.MessageServiceOperations.SetRateLimit` | src/fileservice/MessageServiceOperations.cpp:23-30 | a new limit starts with an empty history; counters and audit go on |
| `RateLimit.AppendAudit` | src/fileservice/MessageServiceOperations.cpp:114-134 | the loop that drops the oldest entries leaves what the next row describes |
| `RateLimit.RecentIsLastHundred` | src/fileservice/MessageServiceOperations.cpp:114-134 | the audit shows everything, or the last hundred entries |
| `RateLimit.RateIsBounded` | src/fileservice/MessageServiceOperations.cpp:32-69 | any closed stretch of one window contains at most twice the limit of accepted requests per client and operation |
| `RateLimit.TwiceTheLimitOccurs` | src/fileservice/MessageServiceOperations.cpp:32-69 | the bound is exact: three requests under a limit of one, two of them accepted at the ends of one window |
| `RateLimit.RetryIsHonoured` | src/fileservice/MessageServiceOperations.cpp:47-57 | after a rejection the first request at or after the promised time is accepted, and the promise lies in (0, window] |
| `RateLimit.RejectedUntil` | src/fileservice/MessageServiceOperations.cpp:47-57 | before the promised time every request of the bucket is rejected |
| `RateLimit.RejectionTellsWindowEnd` | src/fileservice/MessageServiceOperations.cpp:47-57 | the promise of a rejection is the end of its window |
| `RateLimit.WindowsOk` | src/fileservice/MessageServiceOperations.cpp:41-59 | the bucket counts what its window accepted, nothing accepted lies beyond it, and the stretch before it holds at most the limit |
| `RateLimit.BucketsAreSeparate` | src/fileservice/MessageServiceOperations.cpp:11-14 | two requests share a bucket if and only if client (trimmed) and operation are the same |
| `RateLimit.CountedOnce` | src/fileservice/MessageServiceOperations.cpp:46-68 | the counter of an operation and the total grow by one for each answer |
| `RateLimit.TotalsAddUp` | src/fileservice/MessageServiceOperations.cpp:136-153 | the totals are the sums over the operations, and accepted and rejected make up all requests |
| `ChatCleanup.StartChatFileCleanup` | src/fileservice/FileServiceHttpServer.cpp:1066-1132 | the two loops delete exactly the overdue and then the surplus files, by days of 86400000 ms and megabytes of 1048576 bytes, and report their number and bytes |
| `ChatCleanup.DeleteOverdue` | src/fileservice/FileServiceHttpServer.cpp:1096-1106 | phase one deletes all idle expired files |
| `ChatCleanup.DeleteSurplus` | src/fileservice/FileServiceHttpServer.cpp:1108-1123 | phase two deletes idle files, oldest first, as long as the total exceeds the quota |
| `ChatCleanup.ActiveSurvives` | src/fileservice/FileServiceHttpServer.cpp:1098-1118 | a file in the snapshot of active downloads survives, whatever fails |
| `ChatCleanup.PhaseOneLeaves` | src/fileservice/FileServiceDatabase.cpp:599-627 | a file survives phase one if and only if it is active, newer than the cutoff, or could not be deleted |
| `ChatCleanup.NeededIsFirst` | src/fileservice/FileServiceHttpServer.cpp:1109-1123 | phase two stops at the first point within the quota: every shorter choice is above it |
| `ChatCleanup.CandidatesByAge` | src/fileservice/FileServiceDatabase.cpp:641-669 | candidates come oldest first, and no file left out by the limit of 500 is older than one that is in |
| `ChatCleanup.OldestAreBounded` | src/fileservice/FileServiceDatabase.cpp:641-669 | the candidates are 500, or all if there are fewer |
| `ChatCleanup.FailedQueriesDeleteNothing` | src/fileservice/FileServiceDatabase.cpp:629-669 | when the query for the total or for the candidates fails, phase two deletes nothing |
| `ChatCleanup.QuotaOrExhausted` | src/fileservice/FileServiceHttpServer.cpp:1108-1123 | the result is within the quota or every idle file among the 500 oldest is gone, in both cases up to files whose DELETE failed |
| `ChatCleanup.FreedBytes` | src/fileservice/FileServiceHttpServer.cpp:1091-1123 | the freed bytes equal the total before minus the total after if and only if no file with bytes was counted whose DELETE failed |
| `ChatCleanup.StuckFileIsReported` | src/fileservice/FileServiceHttpServer.cpp:1099-1106 | this occurs: an expired file whose DELETE fails is reported as freed and still there |
| `Supervisor.ShouldRestartAfterCrash` | src/chatservice/ServiceHostPolicy.cpp:65-75 | the loop answers whether fewer than ten crashes lie in the 300000 ms up to now |
| `Supervisor.AtMostSevenCrashes` | src/chatservice/ServiceHostPolicy.cpp:56-75 | with full waits any five minutes contain at most seven crashes |
| `Supervisor.SevenCrashesOccur` | src/chatservice/ServiceHostPolicy.cpp:56-63 | seven do occur |
| `Supervisor.SuperviseChild` | src/chatservice/ServiceHostMain.cpp:305-371 | with the delays that the loop itself waits (5 s, 30 s, then 60 s), it never gives up, records every crash at its time, and ends with the first round that is stopped or exits normally |
| `Supervisor.OneMoreCrash` | src/chatservice/ServiceHostMain.cpp:356-366 | the delays of the loop keep its crashes spaced |
| `FanOut.GroupFanOut.DeliverRange` | src/app/GroupFanOutDelivery.cpp:39-68 | a range is attempted in order; attempted = written + queued + failed, and the callback is called exactly for the written payloads |
| `FanOut.GroupFanOut.Deliver` | src/app/GroupFanOutDelivery.cpp:132-156 | everything at once without a context or for a small group, otherwise the first batch |
| `FanOut.GroupFanOut.TimerFires` | src/app/GroupFanOutDelivery.cpp:160-187 | the next batch while the context lives, nothing afterwards |
| `FanOut.GroupFanOut.Run` | src/app/GroupFanOutDelivery.cpp:132-188 | the attempts are a whole-batch prefix of the payloads, and with a context that lives long enough the same attempts and callbacks as in one go |
| `FanOut.ReachedIsWholeBatches` | src/app/GroupFanOutDelivery.cpp:173-182 | how far k batches reach |
| `FanOut.WrittenInJoins` | src/app/GroupFanOutDelivery.cpp:46-59 | the callbacks of adjoining ranges join |
| `FanOut.WrittenInOne` | src/app/GroupFanOutDelivery.cpp:46-59 | and one payload is called back exactly if it was written |
| `AzureSettings.EnterSelection` | src/integrations/AzureDevOpsSettings.cpp:372-390 | the selected organisation and project are entered in the lists, or the organisation taken from them |
| `AzureSettings.FillProject` | src/integrations/AzureDevOpsSettings.cpp:392-400 | a missing project is taken from the selected organisation |
| `AzureSettings.NormalizeOrganizations` | src/integrations/AzureDevOpsSettings.cpp:311-401 | the loops compute the pass whose fixed points are stated below |
| `Lists.FindIndex` | src/integrations/AzureDevOpsSettings.cpp:244-281 | the first entry that agrees after trimming and ignoring case, or -1 |
| `Lists.KeepFirstKeepsFirsts` | src/integrations/AzureDevOpsSettings.cpp:317-336 | what is kept is exactly the first occurrence of every name that is not blank, in order |
| `AzureSettings.NormalizedIsClean` | src/integrations/AzureDevOpsSettings.cpp:311-401 | after one pass organisations, projects and targets are trimmed, not empty and unique ignoring case, for any folding of case that keeps only the empty name empty |
| `AzureEntries.NormalizedKeepsFields` | src/integrations/AzureDevOpsSettings.cpp:311-401 | every target, organisation and project of the result is one of the input with each of its own fields trimmed, switches and poll times included, or the selected one; user and selection are kept |
| `AzureEntries.MissingProjectIsFirst` | src/integrations/AzureDevOpsSettings.cpp:392-400 | a blank project becomes the first one of the selected organisation |
| `AzureSettings.OnePassSuffices` | src/integrations/AzureDevOpsSettings.cpp:372-401 | a second pass changes nothing if and only if it is not the case that the organisation is empty, the project is not, and the first listed organisation lacks the project |
| `AzureSettings.SecondPassNeeded` | src/integrations/AzureDevOpsSettings.cpp:388-398 | this occurs: a project without an organisation, and one listed organisation without projects |
| `AzureSettings.TwoPassesSuffice` | src/integrations/AzureDevOpsSettings.cpp:311-401 | two passes always reach the fixed point |
| `Chunks.CompletedBytesForTask` | src/app/MessagePresentationHelpers.cpp:137-143 | the loop adds up the bytes of the listed chunks |
| `Chunks.ChunkIsOneOfTheFile` | src/app/MessagePresentationHelpers.cpp:124-135 | a chunk stands for bytes exactly when its index is one of the file's |
| `Chunks.CompletedBytesAreConserved` | src/app/MessagePresentationHelpers.cpp:124-143 | distinct chunks never exceed the file size, and equal it if and only if all chunks are listed |
| `Chunks.NoOverflow` | src/app/MessagePresentationHelpers.cpp:129-142 | no offset and no partial sum leaves 64 bits for 32-bit indices and chunk sizes up to 2^31 |
| `Chunks.DuplicatesCountTwice` | src/app/MessagePresentationHelpers.cpp:137-143 | an index listed twice is counted twice |
| `Text.TrimmedIsIdempotent` | src/fileservice/MessageServiceDatabase.cpp:30-33 | trimming a string twice is trimming it once |
| `Text.TrimmedIsMiddle` | src/fileservice/MessageServiceDatabase.cpp:30-33 | what is left is a middle part with nothing but space around it and none at its ends |
| `Sql.OrderBySorts` | src/fileservice/FileServiceDatabase.cpp:641-669 | ORDER BY returns the same rows in ascending order |

## Left out

- Authentication, token scopes, workspace access checks, JWT signing: single-branch decisions.
- HTTP, JSON and SQL text: requests are typed records and statements are table operations.
- MessageStore.MessageServiceDatabase.StoreMessage: COMMIT is taken to succeed, because its failure path does not roll back and leaves the transaction open. After it the code dereferences the result of a SELECT of the stored row without a check (MessageServiceDatabase.cpp:614); that this SELECT fails, which is undefined behaviour after a committed store, is not modelled.
- MessageStore.MessageServiceDatabase.MarkDelivered: COMMIT is taken to succeed, as for a store.
- MessageStore.MessageServiceDatabase.MarkRead: COMMIT is taken to succeed, as for a store.
- FileServer.FileService.WopiPutFile: a failing COMMIT drops the transaction. SQLite may keep it open, so that later statements of the connection see it until another COMMIT keeps it or a ROLLBACK drops it.
- FileServer.FileService.SaveCallback: a failing COMMIT drops the transaction, as for WOPI PutFile.
- FileServer.FileService.InsertAndSelect: a failing COMMIT drops the transaction, as for WOPI PutFile.
- FileServer.FileService.DeleteFile: a failing COMMIT drops the transaction; the code does not roll it back, and it may stay open.
- A restart of the service: the registry lives in memory and the log on disk, so a restart, too, makes them disagree.
- The columns of a delivery row for retries and of a message for deletion, which no modelled call sets.
- A partial write of a blob: `saveFile` does not look at the number of bytes written. Paths are pairs of file and version id, whose strings differ because random ids contain no slash.
- WOPI locks and the deletion of the lock row after a save: REFRESH_LOCK and UNLOCK do not compare lock ids.
- Blobs without a row after a failed WOPI PutFile or callback: allowed by the code, and only "rows have blobs" is claimed.
- Real threads: each route runs as one step. The download inside the callback and the timer of the fan-out are separate steps.
- A key check while another callback for the same file is downloading: the mutex keeps it waiting, so it is no step of the model.
- Several readings of the clock within one call: one reading serves the whole call.
- Strings are sequences of characters, without normalisation or encoding; how case is folded is a parameter.
- The order in which the metrics list their entries.
- The screen reader after it has closed the connection: bytes that still arrive are not modelled.
- The order between payloads sent and signals emitted by a call session; each of the two lists keeps its own order.
- Media set-up and input events of a call beyond passing through the links.
- The paths of chat files on disk during the cleanup, and uploads while it runs.
- The start of the supervised process, log rotation and the service control interface of the host.
- Persisting the Azure DevOps settings and merging their poll state.
- `MessageEventBus`: the stream route reads the database log.
- `parseAckSeq` and the other request parsers: branches that a reading settles.
- Audio, JPEG, screen grabbing, input injection, dialogs, presentation text, installer, diagnostics, remote adapters.
