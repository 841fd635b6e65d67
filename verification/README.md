# WispGate verification model

WispGate lets an Android app use small programs ("Wisps") that run in a Python runtime, over a relay that
both sides reach by TLS but do not trust with their data. This project models the parts of it that decide
what happens when connections break, frames are lost or repeated, and several coroutines change the same
tables, and proves what those parts promise.

| file | what it models |
|---|---|
| `OperationLedger.dfy` | when the Python runtime may run a mutating callback: a timed state machine over its tables of transfers, active operations and retained outcomes |
| `LedgerRecords.dfy` | what is on record and what a resume is answered, over all runs |
| `LedgerUploads.dfy` | where uploads come from, when they expire, and runs from request to resume |
| `AppserveClient.dfy` | the runtime's dictionaries and the methods that update them, each proved to take one step of that machine |
| `ReceiverQuota.dfy`, `MapSums.dfy` | which uploads are admitted, and the sums over the table of transfers |
| `FileAction.dfy` | the request made of staged files, against the admission rule |
| `MutationRecovery.dfy` | Android's start-then-resume protocol: what it encrypts and how it reads the answers |
| `PeerSession.dfy`, `Channel.dfy` | the symmetric peer session of both runtimes, and the sessions of one Android endpoint with one Wisp over an adversarial relay, handshakes included |
| `EndToEnd.dfy` | mutations, sessions and ledger as one machine |
| `Transcript.dfy` | the NUL-joined byte strings that both runtimes authenticate |
| `Base64Url.dfy` | the hand-written base64url codec (section 5 of RFC 4648) |
| `BulkPairing.dfy`, `BulkTransfer.dfy` | the relay's pairing of bulk connections, and the three chunked loops a file goes through |
| `FileTransferStager.dfy` | the staging area on Android and the form script that fills it |
| `RelayTable.dfy` | the relay's session table: reconnects, failed forwards, forwarding of frames |
| `RelayState.dfy` | endpoint records and the administrator claim |
| `RelayFrames.dfy` | the heartbeat-transparent frame reader |
| `Wrappers.dfy` | `Option` and `Result` |

## How it is modelled

Objects whose methods update fields are classes; where several coroutines share them, the class is tied
to a value-level state machine whose steps are stretches of code without an await, and the theorems
are about all runs of that machine. In the Python runtime only the event loop dispatches bodies, and it
awaits each one before reading the next frame (appserve/client.py:323-345), so two dispatches never
interleave: a dispatch expires transfers and records, acts on its body, and awaits the callback of a plain
action (appserve/client.py:458-544). The ledger says where it stands and takes the next one only when it is
over. The workers that receive uploads run between any two of its awaits.

Handshake messages are signed and pinned to an identity, so the relay cannot make one, but it can deliver one
again, and the Wisp then makes another session object with the same keys (appserve/client.py:395-415). What holds
for every object, what holds only if no handshake is delivered twice, and what goes wrong otherwise is stated
separately.

Cryptography is ideal and not computed: a sealed frame records the key, nonce, additional data and body it
was made from; HKDF is injective; AES-GCM on files is a keystream addressed by position plus a tag, both
arbitrary functions. Clocks, random identifiers, results of reads and of the network are parameters.

## Where the code differs from its documentation

- protocol.md:202 says that every bulk file has an RSA-wrapped key of its own and that connections are paired by one-time
  tickets. The code derives the key from the peer session and pairs by session and transfer id; the model follows the code.
- protocol.md:54 says that an interrupted request is retried from the beginning after a session reset. For mutations the
  code sends a resume instead, and the model follows it.
- protocol.md:169 counts on protection against a relay that replays traffic, and protocol.md:38 on a rejected replay. A
  repeated frame is rejected; a repeated handshake is not, and starts the session anew (`Channel.NonceReuse`,
  `EndToEnd.SecondCallback`).
- protocol.md:65 says that heartbeats are consumed transparently. That holds within one read; from one read to the next it
  holds exactly when no own ping is outstanding (`RelayFrames.SeamlessExactlyWithoutPing`).
- protocol.md:67-73 speaks of a retained final response. A result with assets is not retained, and the plain lane then
  runs again (`OperationLedger.AssetResultsAreNotRetained`).

## Model

| member | source | states |
|---|---|---|
| `OperationLedger.FileLaneAtMostOnce` | appserve/client.py:487-516 | in every run, two callback starts of the file lane for one (sender, transfer id) are more than the 900 s retention apart |
| `OperationLedger.PlainLaneAtMostOnce` | appserve/client.py:517-548 | the same for plain actions, unless a result with assets was returned in between |
| `OperationLedger.AssetResultsAreNotRetained` | appserve/client.py:517-548 | in every reachable state, within the retention a plain action runs again if and only if an earlier result of it had assets and nothing is recorded for it |
| `OperationLedger.AssetActionRunsTwice` | appserve/client.py:543-548 | a run from the empty state in which it does |
| `OperationLedger.LanesDoNotSeeEachOther` | appserve/client.py:517-538 | in every reachable state, a plain action with the id of a recent upload runs if and only if that upload is in flight and nothing is recorded |
| `OperationLedger.ActionDuringUpload` | appserve/client.py:517-538 | a run in which a plain action starts beside the upload callback of the same id |
| `OperationLedger.UploadsDoNotSeeActions` | appserve/client.py:487-515 | an upload with the id of a recent plain action is accepted if and only if it is admissible, nothing is recorded and the action returned assets; never beside the running action |
| `OperationLedger.UploadAfterAssets` | appserve/client.py:487-515 | a run in which an upload is accepted and its callback starts right after the plain action of the same id returned assets |
| `OperationLedger.OneCallbackAtATime` | appserve/client.py:532-544 | in every reachable state an operation is active exactly while the event loop awaits its callback, so none is active at a dispatch |
| `OperationLedger.AnswersAreFresh` | appserve/client.py:458-459 | nothing is answered from a record that was older than 900 s when its dispatch expired the records |
| `OperationLedger.ExitsAreRecorded` | appserve/client.py:631-692 | no step takes a transfer out of the table before an outcome dated after its acceptance is recorded, or its retention has run out |
| `OperationLedger.ReachableRemembers` | appserve/client.py:757-774 | that rule holds in every reachable state, through failures, cancellation and the two halves of expiry |
| `OperationLedger.ResumeNeverExpiresEarly` | appserve/client.py:464-484 | within the retention a resume of an accepted upload is answered `running` or with an outcome recorded since, never `expired` |
| `OperationLedger.ActionResumeNeverExpiresEarly` | appserve/client.py:464-484 | within the retention a plain action without assets has an outcome recorded since its start whenever its callback is not being awaited, so at every dispatch |
| `OperationLedger.ReachableRecordKinds` | appserve/client.py:677-680 | a record that is not a result or an error says `indeterminate`, in every reachable state |
| `LedgerRecords.LastOutcomeIsKept` | appserve/client.py:662-689 | in every run the last outcome recorded for an operation is on record, as the callback or the failure gave it, until 900 s have passed |
| `LedgerRecords.RecordIsLastOutcome` | appserve/client.py:776-784 | and nothing else is: every record is the last outcome of its operation, dated when it happened |
| `LedgerRecords.ActionResultIsAnswered` | appserve/client.py:545-547 | after a plain action returned a payload without assets, and until another outcome, a resume within 900 s is given exactly that payload as completed |
| `LedgerRecords.UploadResultIsAnswered` | appserve/client.py:676-681 | the same for the result of an upload |
| `LedgerRecords.UploadErrorIsAnswered` | appserve/client.py:654-667 | an upload that failed is answered with its error text |
| `LedgerUploads.LostResultIsResumed` | appserve/client.py:676-689 | a run in which a resume gets the result of an upload whose completion was not delivered |
| `LedgerUploads.FailedUploadIsResumed` | appserve/client.py:654-674 | a run in which a resume gets the error of a failed upload |
| `LedgerUploads.SlowUploadIsResumed` | appserve/client.py:757-774 | a run in which the dispatch of a resume cancels the upload that took too long, and answers `indeterminate` |
| `LedgerUploads.TransfersAreAsRequested` | appserve/client.py:582-624 | every transfer in the table is that of one file_begin: its Wisp, its time, and its files one by one within the limits of 32 files, 128 and 512 characters and a ciphertext of size + 16 |
| `LedgerUploads.OnlyOldUploadsExpire` | appserve/client.py:757-769 | an upload is cancelled, or waited for by expiry, only when it is older than 600 s |
| `LedgerUploads.OldUploadsAreGone` | appserve/client.py:757-774 | when a dispatch acts on its body, every transfer in the table was at most 600 s old when that dispatch looked for expired ones |
| `OperationLedger.ReachableWithinQuota` | appserve/client.py:562-629 | in every reachable state the receiver quota holds: at most 256 MiB in all, 4 transfers a sender, 1 to 32 files with distinct ids |
| `OperationLedger.StepKeepsInv` | appserve/client.py:451-548 | every step of every coroutine keeps the ledger invariant (clock, quota, where the dispatch stands, coverage of starts, spacing) |
| `OperationLedger.StepIsCareful` | appserve/client.py:757-784 | a record is only replaced by a newer one or dropped after its retention, and nothing in flight disappears without a record |
| `AppserveClients.AppserveClient.MarkExpiredTransfers` | appserve/client.py:757-771 | the first half of the expiry records and cancels exactly the expired transfers |
| `AppserveClients.AppserveClient.RecordAndCancel` | appserve/client.py:761-769 | its loop marks and records every listed transfer and no other |
| `AppserveClients.AppserveClient.SweepExpiredTransfers` | appserve/client.py:770-774 | the second half removes exactly the listed transfers, after their workers have ended |
| `AppserveClients.AppserveClient.ExpireCompletedOperations` | appserve/client.py:780-784 | drops exactly the records older than 900 s |
| `AppserveClients.AppserveClient.ResumeOperation` | appserve/client.py:464-484 | answers from the record, marked `completed` unless it has a status of its own, else `running` for work in flight on either lane, else `expired`; changes no table |
| `AppserveClients.AppserveClient.BeginFileAction` | appserve/client.py:487-516 | a recorded id is answered from its record and one in the table with `running`; otherwise the upload is accepted exactly when admissible, and a rejected one leaves the table alone |
| `AppserveClients.AppserveClient.SpawnTransferWorker` | appserve/client.py:512-515 | after the answer was sent an accepted upload gets its worker; one whose answer could not be sent stays without |
| `AppserveClients.AppserveClient.FailTransfer` | appserve/client.py:654-674 | the error is recorded with its text before it is delivered |
| `AppserveClients.AppserveClient.CompleteTransfer` | appserve/client.py:676-689 | the payload, or `indeterminate` for a result with assets, is recorded before delivery |
| `AppserveClients.AppserveClient.BeginAction` | appserve/client.py:517-538 | a plain action starts exactly when its id is valid, has no record and is not active; otherwise it is answered `invalid`, from its record, or with `running` |
| `AppserveClients.AppserveClient.ReturnAction` | appserve/client.py:543-548 | the payload of an action that returns is recorded, unless its result has assets |
| `ReceiverQuota.CheckManifests` | appserve/client.py:582-623 | the early-exit manifest loop accepts a list exactly when the list as a whole is acceptable, and builds its entries in order |
| `ReceiverQuota.Admit` | appserve/client.py:562-624 | an upload is admitted exactly when ids, counts, manifests and the byte quota allow it |
| `ReceiverQuota.Reserved` | appserve/client.py:583 | the nested sum over all active transfers |
| `ReceiverQuota.BytesAddUp` | appserve/client.py:583 | the reserved bytes are the sum of the sizes of all files of all transfers |
| `ReceiverQuota.ActiveForSender` | appserve/client.py:575-577 | the number of active transfers of one sender |
| `ReceiverQuota.AdmissionKeepsQuota` | appserve/client.py:562-629 | admitting an admissible upload keeps all bounds of the table |
| `ReceiverQuota.ShrinkingKeepsQuota` | appserve/client.py:690-692 | removing transfers keeps them |
| `FileActions.StagedIsAdmitted` | wispgateclient/wisp/src/main/java/com/example/wispgateclient/wisp/WispFileTransfer.kt:177-203 | whatever the staging area on Android hands over the Wisp admits, if and only if the transfer is new, its sender has fewer than 4 and the sizes fit into 256 MiB |
| `MutationRecovery.RecoverMutationOnce` | wispgateclient/wisp/src/main/java/com/example/wispgateclient/wisp/SessionCrypto.kt:37-58 | one start, then one resume exactly after a recoverable failure of the start; which value or which message comes out |
| `MutationRecovery.AtMostOneStart` | wispgateclient/wisp/src/main/java/com/example/wispgateclient/wisp/RelayClient.kt:209-235 | the attempts of one mutation, plain or with files, encrypt at most one start body; whatever follows it is a resume |
| `MutationRecovery.WhatIsSent` | wispgateclient/wisp/src/main/java/com/example/wispgateclient/wisp/RelayClient.kt:258-373 | exactly which bodies a mutation encrypts, for every way its exchanges and its upload can go |
| `MutationRecovery.PlainSucceedsExactly` | wispgateclient/wisp/src/main/java/com/example/wispgateclient/wisp/RelayClient.kt:258-289 | after which exchanges a plain mutation succeeds, and with which reply: exactly these |
| `MutationRecovery.FileSucceedsExactly` | wispgateclient/wisp/src/main/java/com/example/wispgateclient/wisp/RelayClient.kt:291-373 | the same for an upload, whose transfer errors are raised |
| `MutationRecovery.StartsNeedDispatches` | appserve/client.py:464-548 | every callback start uses up a dispatched start request of its key, and a resume gives none |
| `MutationRecovery.ResumeIsUnderstood` | wispgateclient/wisp/src/main/java/com/example/wispgateclient/wisp/WispFileTransfer.kt:27-33 | how Android reads the answer to a resume at every reachable dispatch: a retained result or error as completed, an upload in flight as running, anything else as a failure; a plain action is never running then |
| `MutationRecovery.ActionResultComesThrough` | wispgateclient/wisp/src/main/java/com/example/wispgateclient/wisp/RelayClient.kt:258-289 | if the reply to a plain start is lost in any way and the resume is dispatched within 900 s of the return, the mutation returns exactly what the callback returned |
| `MutationRecovery.UploadResultComesThrough` | wispgateclient/wisp/src/main/java/com/example/wispgateclient/wisp/RelayClient.kt:291-373 | the same for an upload whose completion is lost |
| `MutationRecovery.UploadErrorComesThrough` | wispgateclient/wisp/src/main/java/com/example/wispgateclient/wisp/RelayClient.kt:352-355 | the error of an upload is raised with its own text |
| `EndToEnd.MutationRunsAtMostOnce` | wispgateclient/wisp/src/main/java/com/example/wispgateclient/wisp/RelayClient.kt:209-235 | in the composed machine of mutations, sessions and ledger, the callback of an operation runs at most once as long as no handshake is delivered twice, whatever frames are lost, repeated or reordered and however the attempts end |
| `EndToEnd.RunsAtMostOncePerDelivery` | appserve/client.py:395-415 | if no handshake is delivered more than d times, the callback of an operation runs at most d times |
| `EndToEnd.EveryDeliveryRuns` | appserve/client.py:395-439 | this bound is reached for every d > 0: a run in which one start is encrypted, handshake and start are delivered d times, each time after the last record has expired, and the callback runs d times |
| `EndToEnd.SecondCallback` | appserve/client.py:395-419 | in particular a handshake delivered twice can run a callback twice |
| `EndToEnd.DispatchActs` | appserve/client.py:459-548 | in every reachable state a dispatched start runs its callback, or has its upload accepted, exactly if nothing is known of its id and it is proper; nothing else is logged |
| `EndToEnd.RunsAreSpaced` | appserve/client.py:464-548 | however often handshakes are delivered, two runs of a callback in one lane are more than 900 s apart, but for plain results with assets |
| `EndToEnd.EncryptedAtMostOnce` | wispgateclient/wisp/src/main/java/com/example/wispgateclient/wisp/RelayClient.kt:291-372 | Android encrypts at most one start of an operation in all its sessions together, and none of an operation it did not begin |
| `EndToEnd.AcceptedPerDelivery` | appserve/client.py:421-439 | the starts the Wisp accepts in a session are at most those Android encrypted there, times the deliveries of its handshake |
| `EndToEnd.StepKeepsInv` | appserve/client.py:421-548 | every step of the composed machine keeps that what is dispatched for this endpoint was accepted, and what is encrypted was asked for |
| `PeerSessions.PeerSession.Encrypt` | appserve/e2e.py:106-125 | succeeds exactly while the session is live and the counter has a nonce; the frame carries the counter, which advances |
| `PeerSessions.PeerSession.Decrypt` | appserve/e2e.py:127-149 | succeeds exactly for a live, routed frame with the exact next number that opens under the receive key; only then does the counter advance |
| `PeerSessions.PeerSlot.HandleEnvelope` | appserve/client.py:395-415 | every session_init gets a new object with both counters at 0 |
| `PeerSessions.PeerSlot.HandleSessionEnvelope` | appserve/client.py:421-439 | a frame without a session changes nothing; a rejected one costs the session; an accepted one yields its body |
| `PeerSessions.EncodersAgree` | wispgateclient/wisp/src/main/java/com/example/wispgateclient/wisp/SessionCrypto.kt:83-86 | Python's and Kotlin's eight counter bytes are equal for every number below 2^63 |
| `PeerSessions.NonceInjective` | appserve/e2e.py:49-52 | no two numbers have the same nonce, over the whole range of either runtime and across both |
| `PeerSessions.NonceLayout` | appserve/e2e.py:49-52 | the nonce of either runtime is W, G, 1, 0 and the number in eight bytes, high byte first |
| `PeerSessions.ToBytesInjective` | appserve/e2e.py:49-52 | big-endian encoding into n bytes is injective below 256^n |
| `Channel.SlotFollowsRuntime` | appserve/client.py:395-439 | the steps of the channel change the current session as these methods do |
| `Channel.AcceptedIsPrefix` | appserve/e2e.py:127-149 | with a relay that drops, repeats, reorders, reflects or forges frames and handshakes, every session object of the Wisp has accepted a prefix of what Android encrypted in its session |
| `Channel.RepliesAreGenuine` | wispgateclient/wisp/src/main/java/com/example/wispgateclient/wisp/SessionCrypto.kt:209-224 | body n that Android accepted is message n of some object that the Wisp made for that session |
| `Channel.RepliesArePrefix` | wispgateclient/wisp/src/main/java/com/example/wispgateclient/wisp/SessionCrypto.kt:209-224 | in a session whose handshake was delivered once Android has accepted a prefix of what the Wisp encrypted |
| `Channel.LostFrameStopsAcceptance` | appserve/e2e.py:127-149 | an object of the Wisp that was not given message n of its session accepts nothing after it |
| `Channel.LostReplyStopsAcceptance` | wispgateclient/wisp/src/main/java/com/example/wispgateclient/wisp/SessionCrypto.kt:209-224 | the same for Android, while no object made for the session has got its message n through |
| `Channel.MessageIsAccepted` | wispgateclient/wisp/src/main/java/com/example/wispgateclient/wisp/SessionCrypto.kt:197-224 | an undisturbed message is accepted if and only if the receiver is live and expects its number (and, on Android, the number is below 2^63) |
| `Channel.SendGoesOut` | appserve/e2e.py:106-125 | what a send does on either side, in every reachable state: while the object is young and has numbers left the body becomes its next message and that message is on the wire; otherwise nothing happens |
| `Channel.ArrivalAtWisp` | appserve/e2e.py:127-149 | what the arrival of a message does to the current object of the Wisp: its body comes out if and only if the object is younger than 1800 s and expects that number; otherwise the session is lost |
| `Channel.ArrivalAtAndroid` | wispgateclient/wisp/src/main/java/com/example/wispgateclient/wisp/SessionCrypto.kt:197-224 | what the arrival of a message does to an object of Android: the body is accepted under the same condition, for numbers below 2^63 |
| `Channel.NoncesRepeatExactlyWhen` | appserve/e2e.py:106-125 | a pair of directional key and nonce is used twice if and only if two objects that the Wisp made from one handshake have both encrypted something |
| `Channel.NoncesNeverRepeat` | appserve/e2e.py:106-125 | so no pair is used twice if no handshake is delivered twice |
| `Channel.NonceReuse` | appserve/client.py:395-415 | a run in which a handshake is delivered twice and one key and nonce encrypt two different bodies |
| `Channel.StepKeepsInv` | appserve/e2e.py:106-149 | every handshake, send and delivery keeps the channel invariant |
| `Base64Url.Encode64` | wispgateclient/wisp/src/main/java/com/example/wispgateclient/wisp/E2EEnvelope.kt:151-164 | the output has length (4n+2)/3, only alphabet characters, the digits of the data and zeros after them |
| `Base64Url.Decode64` | wispgateclient/wisp/src/main/java/com/example/wispgateclient/wisp/E2EEnvelope.kt:166-181 | fails exactly on a foreign character; otherwise writes every whole byte of the text, although the 32-bit accumulator is never masked |
| `Base64Url.ShiftIn` | wispgateclient/wisp/src/main/java/com/example/wispgateclient/wisp/E2EEnvelope.kt:171-178 | only the twelve low bits of the accumulator reach the output |
| `Base64Url.RoundTrip` | wispgateclient/wisp/src/main/java/com/example/wispgateclient/wisp/E2EEnvelope.kt:151-181 | decoding an encoding gives the data back, for every byte array |
| `Base64Url.EncodeThenDecode` | wispgateclient/wisp/src/main/java/com/example/wispgateclient/wisp/E2EEnvelope.kt:151-181 | both loops together are the identity |
| `Base64Url.CanonicalInverse` | wispgateclient/wisp/src/main/java/com/example/wispgateclient/wisp/E2EEnvelope.kt:151-181 | encoding a decoding gives the text back if and only if its length is not 1 mod 4 and its trailing bits are zero |
| `BulkPairing.BulkTable.Connect` | server/appserve_server/service.py:522-575 | what one arrival does to the pairing table and what it is answered, in every case |
| `BulkPairing.BulkTable.MeetWaiting` | server/appserve_server/service.py:549-571 | a second arrival pairs exactly with a complementary offer; otherwise the offer is put back |
| `BulkPairing.BulkTable.Disconnect` | server/appserve_server/service.py:583-589 | the cleanup loop removes the connection's own offer and no other |
| `BulkPairing.PairingTable` | server/appserve_server/service.py:543-575 | in every run waiting and used keys are disjoint, at most 128 connections wait, each live and under one key |
| `BulkPairing.PairsAreAsAnnounced` | server/appserve_server/service.py:523-572 | in every run both ends of a pair are what their headers said: the sender announced itself as sender and the receiver as receiver, under the same session and transfer, naming each other and the same length |
| `BulkPairing.PairsMatch` | server/appserve_server/service.py:557-571 | every pair is a sender and a receiver that name each other and agree on the length |
| `BulkPairing.JoinsAtMostOnePair` | server/appserve_server/service.py:543-575 | no connection is an end of two pairs or both ends of one |
| `BulkPairing.SameKeyIsSpaced` | server/appserve_server/service.py:544-550 | two pairings under one key are at least 600 s apart |
| `BulkPairing.UsedExactlyFor600Seconds` | server/appserve_server/service.py:546-553 | an arrival is told that its transfer is used if and only if its key was paired less than 600 s ago |
| `BulkPairing.AfterCleanup` | server/appserve_server/service.py:583-589 | after its cleanup a connection never waits or pairs again, in any continuation |
| `BulkPairing.RefusalKeepsOffers` | server/appserve_server/service.py:547-567 | an arrival that is turned away takes no offer with it |
| `BulkPairing.EitherOrderPairs` | server/appserve_server/service.py:551-575 | the two ends of a fresh key form the same pair whichever comes first |
| `BulkPairing.KeyIsUnambiguous` | server/appserve_server/service.py:534 | the session:transfer key stands for one transfer if and only if neither id has a colon (but for the outermost characters) |
| `BulkTransfer.EncryptTo` | wispgateclient/wisp/src/main/java/com/example/wispgateclient/wisp/BulkFileCrypto.kt:25-50 | whatever the read sizes and the cipher's buffering, the output is the ciphertext and tag of the whole content; it succeeds exactly if the length is the declared one |
| `BulkTransfer.CopyBulkCiphertext` | server/appserve_server/service.py:610-617 | forwards exactly the announced number of octets, or the whole chunks of a stream that ends early |
| `BulkTransfer.DecryptFile` | appserve/client.py:730-747 | the chunked decryption equals decryption in one piece, consumes size + 16 octets, and fails in the same cases |
| `BulkTransfer.ReceiveBulkFile` | appserve/client.py:694-751 | the same with the nonce check and the additional data of the transfer |
| `BulkTransfer.DecryptsExactlyWhatWasEncrypted` | appserve/client.py:730-747 | a file comes out of a stream if and only if the stream begins with its encryption |
| `BulkTransfer.BulkFileIsDelivered` | server/appserve_server/service.py:596-617 | for any two connections the relay has paired, the receiver gets exactly the sender's file and nothing of what follows |
| `BulkTransfer.AcceptedOrForged` | appserve/client.py:721-747 | for any set of uploads: an accepted file is one of them, under this key and for the expected context, if and only if its tag is not forged, that is, was computed for one of them |
| `BulkTransfer.ShorterFileIsRefused` | wispgateclient/wisp/src/main/java/com/example/wispgateclient/wisp/BulkFileCrypto.kt:33-48 | a file that shrank while it was sent is never accepted |
| `Transcripts.Utf8Injective` | wispgateclient/wisp/src/main/java/com/example/wispgateclient/wisp/BulkFileCrypto.kt:21-23 | texts with the same UTF-8 bytes are equal |
| `Transcripts.RuntimesAgree` | appserve/client.py:721-729 | encoding the fields and joining the bytes gives the same as joining the text and encoding it |
| `Transcripts.JoinInjective` | appserve/e2e.py:41-46 | lists of one length with the same NUL-joined text are equal, if the fields of one of them have no NUL |
| `Transcripts.TightInjective` | appserve/e2e.py:41-46 | lists without empty fields whose borders cannot be moved are determined by their joined text |
| `Transcripts.DecimalInjective` | wispgateclient/wisp/src/main/java/com/example/wispgateclient/wisp/BulkFileCrypto.kt:21-23 | different sizes have different decimal texts |
| `Transcripts.Layouts` | wispgateclient/wisp/src/main/java/com/example/wispgateclient/wisp/BulkFileCrypto.kt:21-23 | the order of the fields in both transcripts |
| `Transcripts.BulkAadMatches` | appserve/client.py:721-729 | receiver and sender authenticate the same bytes if and only if all six fields agree (ids without NUL) |
| `Transcripts.BulkAadIsUnambiguous` | wispgateclient/wisp/src/main/java/com/example/wispgateclient/wisp/BulkFileCrypto.kt:21-23 | among contexts without empty ids the additional data stands for one if and only if no border between two ids can be moved: a NUL, which neither runtime checks for, only as the first character of the session, the last of the file id, or the whole of an id between |
| `Transcripts.AcceptMatches` | wispgateclient/wisp/src/main/java/com/example/wispgateclient/wisp/SessionCrypto.kt:105-112 | the same for the session-acceptance transcripts of both runtimes |
| `Transcripts.AcceptIsUnambiguous` | appserve/e2e.py:41-46 | the acceptance transcript stands for one handshake under the same condition |
| `FileTransferStagers.FileTransferStager.Begin` | wispgateclient/wisp/src/main/java/com/example/wispgateclient/wisp/WispFileTransfer.kt:94-132 | an action is admitted exactly when its data is a JSON object, its manifest can be read, and counts, manifests and sizes allow it, with empty files; otherwise the table is as before |
| `FileTransferStagers.FileTransferStager.Append` | wispgateclient/wisp/src/main/java/com/example/wispgateclient/wisp/WispFileTransfer.kt:135-150 | a chunk is taken exactly when it continues its file within the declared size; it is appended to that file and no other changes |
| `FileTransferStagers.FileTransferStager.Finish` | wispgateclient/wisp/src/main/java/com/example/wispgateclient/wisp/WispFileTransfer.kt:152-163 | hands over an action exactly when all its files are complete, and forgets it |
| `FileTransferStagers.FileTransferStager.Cancel` | wispgateclient/wisp/src/main/java/com/example/wispgateclient/wisp/WispFileTransfer.kt:165-168 | forgets one action and keeps all bounds |
| `FileTransferStagers.FileTransferStager.CancelAll` | wispgateclient/wisp/src/main/java/com/example/wispgateclient/wisp/WispFileTransfer.kt:170-174 | forgets them all |
| `FileTransferStagers.StagedUpload.Write` | wispgateclient/wisp/src/main/java/com/example/wispgateclient/wisp/WispFileTransfer.kt:144-148 | seek and write in place leave the concatenation of all accepted chunks on disk |
| `FileTransferStagers.StageFiles` | wispgateclient/wisp/src/main/java/com/example/wispgateclient/wisp/WispFileTransfer.kt:103-126 | the early-exit manifest loop accepts exactly the lists that are acceptable as a whole, without Long overflow |
| `FileTransferStagers.ReservedBytes` | wispgateclient/wisp/src/main/java/com/example/wispgateclient/wisp/WispFileTransfer.kt:105 | the nested sum in Long arithmetic is exact |
| `FileTransferStagers.AddKeepsLimits` | wispgateclient/wisp/src/main/java/com/example/wispgateclient/wisp/WispFileTransfer.kt:94-132 | admitting an acceptable action keeps at most 4 actions and 256 MiB of declared sizes |
| `FileTransferStagers.FormIsAcceptable` | wispgateclient/wisp/src/main/java/com/example/wispgateclient/wisp/WispFileTransfer.kt:235-250 | a form is never rejected for the file ids that the page makes up |
| `FileTransferStagers.StageFile` | wispgateclient/wisp/src/main/java/com/example/wispgateclient/wisp/WispFileTransfer.kt:256-261 | every chunk of the loop is accepted and the file is reproduced, whatever is called for other actions while the page waits for a chunk |
| `FileTransferStagers.SubmitForm` | wispgateclient/wisp/src/main/java/com/example/wispgateclient/wisp/WispFileTransfer.kt:234-263 | once begin has accepted a form, the action handed over holds exactly the chosen files, whatever begin, append, finish and cancel calls other forms make between chunks; without any, all else is untouched |
| `FileTransferStagers.OtherCalls` | wispgateclient/wisp/src/main/java/com/example/wispgateclient/wisp/WispFileTransfer.kt:94-174 | no such call reaches the page's own action or its files |
| `RelayTable.ReconnectSafety` | server/appserve_server/service.py:413-458 | in every run the table entry of an endpoint is a connection authenticated as it whose handler has not ended, and it is in the liveness table |
| `RelayTable.OnlyOwnersEvict` | server/appserve_server/service.py:451-454 | an entry goes only with a newer connection, its own end, a failed write to it or revocation: exactly these |
| `RelayTable.NewestConnectionStays` | server/appserve_server/service.py:413-458 | a connection takes the entry of its endpoint and keeps it through any run without those, whatever becomes of older ones |
| `RelayTable.KeysDrift` | server/appserve_server/service.py:161-166 | exactly which steps separate the session table from the liveness table |
| `RelayTable.ForwardingIsFaithful` | server/appserve_server/service.py:619-678 | a written frame was read unchanged on a connection of its sender, goes to a connection of its recipient, after its acceptance if the sender has an entry |
| `RelayTable.FrameIsDelivered` | server/appserve_server/service.py:659-678 | a frame that may be forwarded to a connected recipient is acknowledged at once, and written exactly once, unchanged, to the connection the recipient had, by the time its own connection has moved on |
| `RelayTable.ForwardCompletes` | server/appserve_server/service.py:659-678 | an undisturbed forward step by step: what is logged, and that the connection reads again with the tables as they were |
| `RelayTable.FailedForwardEvicts` | server/appserve_server/service.py:678-689 | the same when the write fails: the recipient is evicted from both tables, and the connection reads again |
| `RelayTable.NothingElseIsWritten` | server/appserve_server/service.py:648-657 | a frame that is refused, or whose recipient is not connected, is neither acknowledged nor ever written |
| `RelayTable.SessionFrameForwards` | server/appserve_server/service.py:621-634 | a session frame may be forwarded within exactly these limits, only from its sender, and with no other member |
| `RelayTable.ResetForwards` | server/appserve_server/service.py:635-641 | a session reset exactly with a recipient and a reason of 1 to 128 characters |
| `RelayTable.HandshakeForwards` | server/appserve_server/service.py:642-657 | a handshake envelope exactly with all of its ten members and no other but the public key |
| `RelayTable.ForwardingKeepsOrder` | server/appserve_server/service.py:430-447 | frames of one connection are written in the order read, none twice |
| `RelayTable.RelayRuntime.Register` | server/appserve_server/service.py:421-422 | a new connection takes the entry and the endpoint is online |
| `RelayTable.RelayRuntime.ReadForward` | server/appserve_server/service.py:619-675 | what is answered to the sender for every frame, which connection it goes to, and what is written at once |
| `RelayTable.RelayRuntime.WriteForward` | server/appserve_server/service.py:678 | the frame itself is written to the connection it was looked up for |
| `RelayTable.RelayRuntime.DestinationLost` | server/appserve_server/service.py:679-689 | a failed write evicts the endpoint only if it still holds that connection |
| `RelayTable.RelayRuntime.Disconnect` | server/appserve_server/service.py:451-454 | the cleanup evicts the endpoint only if the entry is its own |
| `RelayStates.AtMostOneAdmin` | server/appserve_server/core.py:232-245 | in every run there is at most one administrator, and it is approved |
| `RelayStates.AdminIsPermanent` | server/appserve_server/service.py:125-167 | once claimed, the same endpoint stays the only administrator through every request and restart |
| `RelayStates.FirstClaimRules` | server/appserve_server/core.py:232-245 | the administrator is the enrolled endpoint whose claim came first |
| `RelayStates.StepKeepsAdmins` | server/appserve_server/core.py:205-263 | the set of administrators changes only by the first claim of a known endpoint |
| `RelayStates.OnlyTheAdminManages` | server/appserve_server/service.py:134-159 | a management request that changes an endpoint comes from the first claimant and is about another endpoint |
| `RelayStates.StatusFollowsDecisions` | server/appserve_server/service.py:153-167 | in every run, in memory and on disk and through restarts, an endpoint is pending from its enrolment, approved, rejected or revoked as the administrator last decided, and approved if it is the administrator (registrations follow an authentication, service.py:354 and 513, so they are of recorded endpoints) |
| `RelayStates.RequestsChangeOneStatus` | server/appserve_server/core.py:255-263 | a management request changes no key, and no record but its target |
| `RelayStates.ClaimAnswers` | server/appserve_server/core.py:232-245 | what a claim is answered in every reachable state, told from the claims alone |
| `RelayStates.KeyIsPermanent` | server/appserve_server/core.py:205-212 | a recorded public key never changes, through every request and every restart |
| `RelayStates.EnrolledKeyIsPermanent` | server/appserve_server/core.py:214-230 | in particular the key that an endpoint enrolled with |
| `RelayStates.ApprovalNeedsAdmin` | server/appserve_server/core.py:214-263 | in particular every endpoint is pending, in memory and on disk, before the first claim of a recorded one |
| `RelayStates.RelayState.RegisterClient` | server/appserve_server/core.py:205-212 | refuses exactly a different key; otherwise the key is the recorded one |
| `RelayStates.RelayState.RegisterAndSave` | server/appserve_server/service.py:513-515 | both callers save the registration at once, unless it was refused |
| `RelayStates.RelayState.EnrollClient` | server/appserve_server/core.py:214-230 | enrols an unknown endpoint as pending and saves; raises exactly on a different key |
| `RelayStates.RelayState.Claim` | server/appserve_server/core.py:232-245 | the answer and the new records of a claim |
| `RelayStates.RelayState.SetClientStatus` | server/appserve_server/core.py:255-263 | the new status, without administrator rights unless approved; fails exactly on an unknown endpoint |
| `RelayStates.RelayState.ManagementRequest` | server/appserve_server/service.py:153-167 | who may change whom, and what is changed: approve means approved, reject rejected, revoke revoked |
| `RelayStates.RelayState.ClientAccess` | server/appserve_server/core.py:247-253 | access is reported only for the recorded key |
| `RelayFrames.ReadApplicationFrame` | wispgateclient/wisp/src/main/java/com/example/wispgateclient/wisp/RelayFrames.kt:29-65 | the loop with one remembered ping agrees with the specification that counts timeouts and pongs, in outcome, frames written and entries used |
| `RelayFrames.NextEntryDecides` | wispgateclient/wisp/src/main/java/com/example/wispgateclient/wisp/RelayFrames.kt:29-65 | what every kind of entry comes to, and what is written for it, once nothing before it was decisive |
| `RelayFrames.CauseIsThatOfTheEntry` | wispgateclient/wisp/src/main/java/com/example/wispgateclient/wisp/RelayFrames.kt:32-61 | every failure has the cause of the entry that decided it: InvalidPing only an empty ping, NonceMismatch only a pong that is not owed |
| `RelayFrames.PingIsTransparent` | wispgateclient/wisp/src/main/java/com/example/wispgateclient/wisp/RelayFrames.kt:51-55 | with a ping taken out of any stream at any place the outcome is the same, whatever it is |
| `RelayFrames.OwnPingIsTransparent` | wispgateclient/wisp/src/main/java/com/example/wispgateclient/wisp/RelayFrames.kt:38-61 | so it is with an own ping and its pong taken out, but for the nonce they used up |
| `RelayFrames.ReturnsFirstApplication` | wispgateclient/wisp/src/main/java/com/example/wispgateclient/wisp/RelayFrames.kt:50-62 | a frame is returned exactly when it is the first that is neither ping nor pong, after heartbeats in good order |
| `RelayFrames.FailsAtFirstTrouble` | wispgateclient/wisp/src/main/java/com/example/wispgateclient/wisp/RelayFrames.kt:32-61 | it fails with a cause exactly when the first entry out of order has that cause |
| `RelayFrames.HeartbeatsAreTransparent` | wispgateclient/wisp/src/main/java/com/example/wispgateclient/wisp/RelayFrames.kt:29-65 | what is returned is what the stream without heartbeats would have given |
| `RelayFrames.RepliesAnswerPings` | wispgateclient/wisp/src/main/java/com/example/wispgateclient/wisp/RelayFrames.kt:51-55 | every ping is answered once, in order, with its nonce; every timeout sends the next own nonce |
| `RelayFrames.AtMostOneOutstanding` | wispgateclient/wisp/src/main/java/com/example/wispgateclient/wisp/RelayFrames.kt:38-44 | timeouts never exceed matched pongs by more than one |
| `RelayFrames.SeamlessExactlyWithoutPing` | wispgateclient/wisp/src/main/java/com/example/wispgateclient/wisp/RelayClient.kt:516-520 | a new reader continues where the last one stopped if and only if that one had no ping outstanding; otherwise the right pong fails it |

## Left out

- EndToEnd.MutationRunsAtMostOnce: the code does not tell a repeated `session_init` from a new one, so this is stated for handshakes that are delivered once; `EndToEnd.SecondCallback` is what happens otherwise. `EndToEnd.EveryDeliveryRuns` shows that its bound is exact; it is not claimed that every further delivery leads to a further run.
- Channel.NoncesNeverRepeat: for the same reason stated for handshakes that are delivered once; the exact condition is `Channel.NoncesRepeatExactlyWhen`.
- MutationRecovery.RecoverMutationOnce: the session map that `invalidate` clears and `sessionFor` fills (RelayClient.kt:463-487) is not modelled, only whether it is called; in the composed machine Android may use any session it has made.
- OperationLedger.FileLaneAtMostOnce: runs through `close()` and cancellation at shutdown are not part of the machine; they drop active work without a record.
- BulkTransfer.BulkFileIsDelivered: one file of a transfer; the files of one transfer share a pairing key, and a second pairing under it is refused for 600 s, so no completion of several files is claimed.
- BulkTransfer.AcceptedOrForged: that forged tags do not occur is an assumption about AES-GCM and not stated.
- FileTransferStagers.SubmitForm: `cancelAll` and a cancellation of the page's own action between chunks are not part of it, and Kotlin string lengths are counted in characters rather than UTF-16 units.
- FileTransferStagers.FileTransferStager.Finish: what `onComplete` does, failures of the file system, and deleting directories, are not modelled.
- RelayTable.ForwardingIsFaithful: authentication is a step that assigns an endpoint to a connection; the challenge, the signature and replies outside `forward` are not modelled.
- RelayTable.FrameIsDelivered: a handler that ends between the acceptance and the write never writes the frame; that is why its connection has to move on.
- RelayStates.KeyIsPermanent: a crash in the middle of writing the state file is not modelled; the file is replaced atomically.
- RelayFrames.ReadApplicationFrame: a failing write of a ping or pong is not modelled.
- JSON text, escaping and the JSON form of the session's additional data: frames and bodies are records. Ill-formed Unicode strings have no UTF-8 form here.
- RSA handshake envelopes, RSA, AES-GCM, HMAC, HKDF and TLS themselves, certificate pinning and bootstrap.
- Response assets from the Wisp to Android: appserve/client.py:817-818 reads fields that the prepared asset does not have, and BulkSocketTransport.kt:99-110 counts the tag into the length it checks, so no round trip is stated for that direction.
- Matching of replies to operations on Android, `state_request`, catalogs, the control connection, wisp registration, logs, updates and the HTML of the management page.
- `RelayState.queue` and `drain`, `retrySessionOnce` and `requirePeerApplicationFrame`: only easy members.
- Sockets, scheduling and the user interface.
