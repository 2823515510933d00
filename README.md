# Video-call signaling and sign-language hooks, modelled in Dafny

This project models three pieces of a browser video-call application with sign-language recognition.

- **The room-scoped signaling relay** (`signaling-server.js`) is modelled in `signaling.dfy`, with the participant table in `participant_table.dfy`.
  - A process-wide registry maps room ids to rooms. A room has a participant table (client id to connection) and a creation time.
  - The server keeps a per-connection session: the `clientId` and `roomId` that the handlers share.
  - It keeps the set of connections whose `readyState` is `OPEN`.
  - Every `send` appends one `(connection, frame)` pair to an output log.
  - `Signaling.Server` has one method per handler: `message`, `close` and the periodic cleanup. It also has methods for `broadcastToRoom`, `addClientToRoom` and `removeClientFromRoom`.
  - Each method is proved against pure functions on the registry: `AfterJoin`, `AfterLeave`, `Fanout`, `RelayOutput` and `Swept`. Lemmas about those functions supply the properties the relay promises.
  - A JavaScript `Map` is an insertion-ordered association list. `Map.forEach` visits entries in that order, and `Map.set` on a present key overwrites that entry where it stands. `Lookup`, `Put` and `Delete` are `Map.get`, `Map.set` and `Map.delete`.
- **The gesture hold/debounce state machine** (`src/hooks/useSignLanguageDetection.ts`) is modelled in `sign_language.dfy`.
  - `SignLanguage.Detector` holds the hook's state values and refs. `OnResults` is the per-frame callback, and it is tied to the pure step function `Advance`.
  - `AppendWord` is the word-list updater.
  - `Run` folds `Advance` over a sequence of frames, so the lemmas can speak of whole runs of frames.
- **ICE-candidate queueing and offer/answer role gating** (`src/hooks/useWebRTC.ts`) is modelled in `peer_signaling.dfy`.
  - `PeerSignaling.Call` holds the hook's displayed state as one `View` value, together with its refs.
  - The peer connection is abstract:
    - `applied` lists, in order, every candidate handed to `addIceCandidate`;
    - `remoteDescriptionSet` and `remoteDescription` stand for the remote description;
    - `posted` lists the messages posted on the channel;
    - `chatInbox` lists the messages handed to the chat callback.
  - A candidate with neither `sdpMid` nor `sdpMLineIndex` cannot become an `RTCIceCandidate`, so it is never applied. `Usable` keeps the others, in order.
  - The FIFO guarantee is in the method contracts. `ProcessQueuedIceCandidates` applies exactly `Usable` of the queue, in order, and empties it. `OnMessage` applies a candidate at once only when the remote description is set, and otherwise appends it to the queue.
  - The class invariant `Valid` keeps a ghost `accepted`: the usable candidates received for the current peer connection, in arrival order. It states that `applied + Usable(queue) == accepted`. Each method's contract says how `accepted` changes. A candidate message adds the candidate when it is usable, `Initialize` starts from the queue, `LeaveCall` drops the queue, and nothing else changes it. Once the remote description is set, the queue is empty.
  - Every method names the fields it may change, so each field it leaves out of that list is unchanged.

The model's types:
- A parsed frame's string fields are `Option<string>`. `None` stands for an absent field, that is JavaScript `undefined`.
- A test such as `clientId && roomId` is `Truthy`: present and not the empty string.
- Connections are numbered as they are accepted. That number stands for the identity of the `ws` object.
- Each handler runs to completion before the next one starts, as on the Node event loop.

The relay is modelled as its code behaves, including these points:
- A second join with a client id that is already present overwrites that client's entry. It is not rejected.
- A room is deleted the moment it empties. There is no grace window.
- `senderId` is not checked against the connection's client id.
- A frame of an unknown type gets no reply. Only a frame that fails to parse, or whose handling throws, gets the `error` frame.
- The sweep deletes empty rooms older than 60000 ms since creation. Since a room that empties is deleted at once, the sweep never finds one: `Signaling.SweepRemovesNothing` proves this.
- Closing a connection removes the entry under that connection's client id even when a later connection has taken that id over with `Map.set`. The contract of `Signaling.Server.OnClose` states this behaviour as written.

## Model

| member | source | states |
|---|---|---|
| ParticipantTable.Lookup | signaling-server.js:94 | `Map.get` finds nothing exactly when no entry has the key; a value it finds is stored under that key |
| ParticipantTable.Put | signaling-server.js:31 | after `Map.set` the key maps to the new value and every other key is unchanged; a new key is appended at the end, and a present key keeps the size |
| ParticipantTable.PutInPlace | signaling-server.js:31 | with distinct keys, setting a present key replaces that one entry's value at its position and leaves every other entry as it was |
| ParticipantTable.PutKeepsKeysDistinct | signaling-server.js:31 | `Map.set` never creates a second entry for a key |
| ParticipantTable.PutEntries | signaling-server.js:31 | every entry after `Map.set` was already there or is the new one |
| ParticipantTable.Delete | signaling-server.js:41 | after `Map.delete` the key is gone, every other key is unchanged, and no entry is new |
| ParticipantTable.DeleteSize | signaling-server.js:41-49 | with distinct keys, deleting a present key shrinks the table by exactly one and an absent key leaves the size alone; keys stay distinct |
| ParticipantTable.DeleteAppended | signaling-server.js:31-41 | deleting a key that was just appended gives back the original table |
| Signaling.AfterJoin | signaling-server.js:22-36 | the room is created on first join with the join time, or keeps its creation time; the client maps to the connection; other clients and other rooms are untouched; the size grows by one for a new client and stays the same for one already present; no registered room becomes empty |
| Signaling.AfterLeave | signaling-server.js:38-52 | the room keeps exactly the table `Delete` leaves, so the client's entry is gone and every other participant keeps theirs; the room is removed exactly when that table is empty; other rooms are untouched; a missing room changes nothing; no registered room is left empty |
| Signaling.LeaveCount | signaling-server.js:38-52 | the returned remaining size is one less when the client was present and unchanged otherwise |
| Signaling.JoinKeepsRegistryOk | signaling-server.js:22-36 | a join with an accepted connection keeps every room non-empty, its client ids distinct and its connections accepted |
| Signaling.LeaveKeepsRegistryOk | signaling-server.js:38-52 | a leave keeps every room non-empty, its client ids distinct and its connections accepted |
| Signaling.JoinThenLeave | signaling-server.js:22-52 | in a registry with no empty room, a client that joins a room it is not in and then leaves restores the registry exactly |
| Signaling.FanoutSends | signaling-server.js:11-20 | a broadcast sends only the given frame, only to open connections other than the excluded one, and at most one frame per table entry |
| Signaling.FanoutStep | signaling-server.js:14-18 | visiting one more entry sends that entry's connection one frame when it is open and not excluded, and nothing otherwise |
| Signaling.FanoutCopies | signaling-server.js:11-20 | a connection receives one copy per entry it holds when it is open and not excluded, and no copy otherwise |
| Signaling.FanoutOnce | signaling-server.js:11-20 | a participant with one entry receives exactly one copy when open and not excluded, and none otherwise |
| Signaling.RelayOutput | signaling-server.js:88-99 | an offer, answer or candidate produces at most one send, which is the frame itself to the open connection registered under a truthy `targetId` in `roomId`; nothing is sent when the room, the target or its open state is missing |
| Signaling.Swept | signaling-server.js:143-152 | the sweep keeps exactly the rooms that are not both empty and older than 60000 ms, unchanged |
| Signaling.SweepRemovesNothing | signaling-server.js:143-152 | when no registered room is empty, the sweep deletes nothing |
| Signaling.Server.constructor | signaling-server.js:9 | the registry starts empty, with no connections and nothing sent |
| Signaling.Server.Connect | signaling-server.js:54-58 | a new connection is open, has unbound `clientId` and `roomId`, and appears in no room |
| Signaling.Server.BeginClose | signaling-server.js:15 | a closing connection is no longer `OPEN`, so broadcasts and relays skip it |
| Signaling.Server.BroadcastToRoom | signaling-server.js:11-20 | the loop appends to the log exactly `Fanout` of the room's table, in table order, and nothing for a missing room |
| Signaling.Server.AddClientToRoom | signaling-server.js:22-36 | the registry becomes `AfterJoin` and the result is the room's new size; the invariants hold |
| Signaling.Server.RemoveClientFromRoom | signaling-server.js:38-52 | the registry becomes `AfterLeave` and the result is the remaining size, 0 when the room is gone or was absent; the invariants hold |
| Signaling.Server.OnMessage | signaling-server.js:60-122 | a join binds the session, joins the room, sends `room-joined` with the new size to the joiner first, and then sends `participant-joined` with the same size to the other open participants; a signal sends `RelayOutput`; chat broadcasts the four copied fields to the room, excluding the sender; an unknown type sends nothing; a malformed frame sends one `Invalid message format` error to the sender; only a join changes the registry |
| Signaling.Server.OnClose | signaling-server.js:124-136 | a connection bound to a truthy client and room leaves it (`AfterLeave`), and `participant-left` with the remaining size goes to every open remaining participant; an unbound close changes neither the registry nor the log |
| Signaling.Server.Sweep | signaling-server.js:143-152 | the loop leaves the registry equal to `Swept`; in every reachable state it changes nothing |
| SignLanguage.Recognized | src/hooks/useSignLanguageDetection.ts:55-64 | a frame shows a gesture exactly when a hand is present and the recogniser returned a non-empty name, and the gesture is that name |
| SignLanguage.AppendWord | src/hooks/useSignLanguageDetection.ts:77-86 | the updater appends the gesture exactly when the list is empty or ends in a different word, and otherwise returns the list unchanged; the list then ends in the gesture and still has no two equal words in a row |
| SignLanguage.AppendWordsNoAdjacentDuplicates | src/hooks/useSignLanguageDetection.ts:77-86 | any sequence of updates keeps the word list free of consecutive duplicates |
| SignLanguage.HoldCountsUp | src/hooks/useSignLanguageDetection.ts:69-89 | while a held gesture stays below 30 frames, each further frame of it raises the count by one, keeps the hold's start time and adds no word |
| SignLanguage.NoWordBeforeHoldFrames | src/hooks/useSignLanguageDetection.ts:69-94 | after a change of gesture, or right after a word, fewer than 30 frames of one gesture add no word, and the count equals the frames seen |
| SignLanguage.Detector.constructor | src/hooks/useSignLanguageDetection.ts:23-33 | no words, no gesture, not detecting, no error, and a reset hold |
| SignLanguage.Detector.StartDetection | src/hooks/useSignLanguageDetection.ts:35-125 | with no video element or while detecting nothing changes; otherwise detection starts with the error cleared, or stops again with the prefixed start-failure message |
| SignLanguage.Detector.OnResults | src/hooks/useSignLanguageDetection.ts:54-105 | the hold refs become `Advance` of the old ones. No recognised gesture clears the current and last gesture and zeroes the count. A new gesture sets the count to 1 and the time to now. A repeated gesture raises the count, and at 30 frames and more than 1000 ms it adds the word through the updater and resets the count and time. The words change only then |
| SignLanguage.Detector.StopDetection | src/hooks/useSignLanguageDetection.ts:127-142 | detection stops; current gesture, last gesture and count are reset; the words are kept |
| SignLanguage.Detector.ClearWords | src/hooks/useSignLanguageDetection.ts:144-146 | the word list becomes empty and nothing else changes |
| SignLanguage.Detector.GenerateSentence | src/hooks/useSignLanguageDetection.ts:148-161 | an empty word list returns no sentence without asking the service; otherwise the service is asked for the current words, its sentence is returned, or a failure returns none and sets the prefixed error; generating is off afterwards |
| PeerSignaling.Usable | src/hooks/useWebRTC.ts:99-111 | the candidates the flush hands to `addIceCandidate`: never more than it was given |
| PeerSignaling.UsableSnoc | src/hooks/useWebRTC.ts:99-111 | one more queued candidate adds itself to the usable ones exactly when it is constructible, so the order is kept |
| PeerSignaling.UsableMembers | src/hooks/useWebRTC.ts:99-111 | a candidate is usable exactly when it was queued and it has `sdpMid` or `sdpMLineIndex` |
| PeerSignaling.UsableAll | src/hooks/useWebRTC.ts:99-111 | when every queued candidate is constructible, the flush skips none of them |
| PeerSignaling.Call.constructor | src/hooks/useWebRTC.ts:20-36 | the hook starts connecting with one participant, no streams, no error, no flags set, no peer connection and an empty queue |
| PeerSignaling.Call.Initialize | src/hooks/useWebRTC.ts:187-206 | without media only the shown state changes, to disconnected; with media there is a local stream, a fresh peer connection with no descriptions and nothing applied, and an open channel; the flags, the queue, the chat callback and the posted messages are kept |
| PeerSignaling.Call.OnChatMessage | src/hooks/useWebRTC.ts:425-430 | the callback is registered and nothing else changes; no other method clears it, so later chat messages reach it (see `HandleChat`) |
| PeerSignaling.Call.ProcessQueuedIceCandidates | src/hooks/useWebRTC.ts:92-114 | with a peer connection and the remote description set, every queued constructible candidate is applied in FIFO order, the others are skipped, and the queue is emptied; otherwise nothing happens |
| PeerSignaling.Call.HandleOffer | src/hooks/useWebRTC.ts:226-247 | a non-initiator whose peer connection accepts the offer sets it as the remote description, flushes the queue, then sets and posts the answer; in every other case nothing changes |
| PeerSignaling.Call.HandleAnswer | src/hooks/useWebRTC.ts:249-259 | an initiator whose peer connection accepts the answer sets it as the remote description and flushes the queue; in every other case nothing changes |
| PeerSignaling.Call.HandleCandidate | src/hooks/useWebRTC.ts:261-282 | with the remote description set, a constructible candidate is applied at once and any other candidate is dropped by the catch; without it, the candidate joins the end of the queue; `accepted` grows by the candidate exactly when it is constructible |
| PeerSignaling.Call.HandleChat | src/hooks/useWebRTC.ts:284-295 | a present payload reaches the registered callback as one message with `isOwn` false; nothing happens without a payload or a callback |
| PeerSignaling.Call.OnMessage | src/hooks/useWebRTC.ts:209-300 | a message for another room, or of another type, changes nothing; each known type has the effect of its case above and changes no other field |
| PeerSignaling.Call.OnInitiatorTimer | src/hooks/useWebRTC.ts:304-323 | only a peer that is neither initiator nor holding a remote description becomes initiator; it then sets and posts its offer unless the peer connection the timer holds is closed, either because the call was left or because the timer is a stale one from an earlier initialisation; only the initiator flag, the local description and the posted messages can change, and a peer that does not qualify changes nothing |
| PeerSignaling.Call.OnConnectionStateChange | src/hooks/useWebRTC.ts:160-181 | connected shows connected and clears the error; disconnected and failed show disconnected with one participant and no remote stream, and failed also sets the failure message; connecting shows connecting and clears the error; other states change nothing; nothing but the shown state ever changes |
| PeerSignaling.Call.OnTrack | src/hooks/useWebRTC.ts:150-158 | a remote track shows a connected call with two participants and a remote stream, and nothing but the shown state changes |
| PeerSignaling.Call.LeaveCall | src/hooks/useWebRTC.ts:366-402 | the peer connection is closed and the channel too; the view resets to disconnected with 0 participants and no streams or error; the initiator flag, the remote-description flag and the queue are reset, so the queued candidates are dropped from `accepted`; the applied candidates, the descriptions, the chat callback and the posted messages are kept |

## Left out

- The HTTP and WebSocket server set-up, `listen` and the SIGINT/SIGTERM shutdown are process plumbing. `send` is an append to the log, and `readyState` is the set of open connections.
- JSON parsing and serialisation are left out. A frame that fails to parse, or whose handling throws, is the `Malformed` input. Field values are strings or absent; numbers and objects in those fields are not modelled.
- The `ws` `error` handler only logs, and all `console` logging is left out.
- The `setInterval` scheduling of the sweep and the clocks (`new Date()` and `Date.now()`) are left out. The time is a parameter of the sweep, of a join and of each gesture frame.
- Behaviour the relay's code does not have is not modelled: bounded outbound queues, frame-size limits, rejection of a duplicate client id, `senderId` checks, idle and join timeouts, and a grace window for empty rooms.
- Interleavings of the browser hooks' `await`s are left out. Each handler runs as one atomic step.
- PeerSignaling.Call.OnMessage: the FIFO order of `applied` holds only because the handlers are atomic. In the code, a candidate can arrive while the flush is waiting on `addIceCandidate` (src/hooks/useWebRTC.ts:107). The remote-description flag is already set then, so that candidate is applied at once (lines 264-272), ahead of the rest of the queue.
- `RTCPeerConnection`, `getUserMedia` and `BroadcastChannel` are abstract state. A failed `setRemoteDescription` is the `remoteOk` parameter. `createAnswer` and `createOffer` always succeed with the given description, except that a closed peer connection makes the offer fail.
- PeerSignaling.Call.ProcessQueuedIceCandidates: a failing `addIceCandidate` on a constructible candidate is caught and logged in the code. Here that candidate still counts as handed to the peer connection, and success or failure is not modelled. The same holds for `HandleCandidate`.
- The `onicecandidate` handler that posts local candidates, `toggleVideo`, `toggleAudio`, `sendChatMessage` and `retryConnection` are left out. The first four only forward to platform objects or post a message. The last combines `leaveCall` with a timer-driven re-initialisation.
- PeerSignaling.Call.OnInitiatorTimer: the timer is never cleared, because `leaveCall` clears only the retry timer (src/hooks/useWebRTC.ts:370-373). So a timer armed before leaving the call can fire after a later re-initialisation. Both flags were reset, so it passes the guard and sets the shared initiator flag. Its `createOffer` on the closed old connection fails into the catch, so nothing is posted. The new run's timer then fails the guard, and this peer ignores every offer from then on (line 228). The `stale` parameter models that firing. The model does not track which timers are pending, so it does not promise that a stale firing only happens after a re-initialisation.
- PeerSignaling.Call.Initialize: it models only the synchronous part of `initializeConnection`. The message handler stays attached to the channel it was installed on, and a later re-initialisation's old channel is not modelled.
- The MediaPipe `Hands` and `Camera` objects and `recognizeGesture` are foreign libraries working on floating-point landmarks. The gesture name a frame yields is an input.
- `generateSentenceFromWords` is a network call to a generative-language service. Its reply is an input.
- The UI components, the routing and the type declaration files are not part of this model.
- The smoke scripts that start a server are not part of this model.
