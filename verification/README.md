# A verified model of the mail server's core

This project models the parts of the mail server whose correctness is about many steps at once, and proves what they promise. It is checked with `dafny verify dfyconfig.toml` (Dafny 4.11). Nothing in it runs the server.

## How it is laid out

| files | part of the server |
|---|---|
| `QueueProtocol`, `MailQueue`, `Envelope` | the durable mail queue: directories, leases, workers, crashes |
| `Leadership`, `Cluster` | leader election over a lock file, and the queue workers under it |
| `StoreProtocol`, `StoredText`, `MailStore` | the crash-atomic message store, the text it writes, and the 250 reply |
| `SmtpFraming`, `SmtpProtocol`, `SmtpAnswers`, `SmtpSession` | reading lines, the text after DATA, the command dialogue and its answers |
| `AdmissionProtocol`, `ConnectionManager` | connection limits under interleaving, and the accept loop |
| `RateLimiter` | windowed counters |
| `SessionCache`, `SessionProtocol`, `AuthManager` | the session store with a cache in front, call by call and interleaved |
| `Base64Decoder`, `MimeParts` | MIME decoding and the parts of a multipart body |
| `DkimBody`, `DkimHeaders`, `DkimHeaderLaws`, `DkimStability` | DKIM canonical forms |
| `DnsPacket`, `DnsWire` | the DNS response parser and the wire form |
| `FlagsIndex` | message flags and their file |
| `LogRotation` | the rotating log |
| `Runs`, `Disk`, `Options`, `Sequences`, `Strings`, `Lines`, `WordLists` | shared: runs of a step relation, files and renames, text |

Code that changes state is a class or a method with loops, as in the server, and each of its methods is proved against a specification function or a step relation. The results are lemmas about those.

Where several processes or threads share state (queue, leadership, store, admission, sessions), the steps of the relation are single file operations, lock operations or counter updates, and the results are about every run of the relation. The classes carry out the same operations: `MailQueue` and `ConnectionManager` let everyone else run between any two of their steps (`Yield` promises nothing about what others do), and `MailStore` keeps the trail of all states it passed through, each of which is a point where the machine may crash. The ghost parameters `alone` (nobody else ran and no time passed), `led` (nobody else moved a message into or out of `inflight`, which `Cluster.InflightStays` proves of a leader) and `healthy` (the file system refused nothing) of the queue methods only serve to say more about such calls; no code depends on them.

## What is assumed

- A rename is atomic, keeps the write time, and is durable once it returned; data is durable once it was flushed; a power loss may leave anything in, or instead of, a file that was not flushed.
- A directory iterator yields the names that were there when the loop began.
- `genId` of the queue never repeats an id (clock and 64 random bits). The ids of the message store are decimal milliseconds. The results for the store say where they need ids that are fresh per user (`Next`) and where any id will do (`AnyNext`); `IdsCollide`, `CollisionLosesMessage` and `AcknowledgedLost` say exactly when a repeated id loses a message.
- The steady clock does not run backwards. It counts nanoseconds from an epoch at zero; a counter that has not been used has its window at the epoch. The rate limiter reads the clock before it takes its mutex, so hits may enter a table out of time order. The bounds per window hold for any order; those per interval, `CountIsHits` and `RefusalIsEarned` assume that the hits on the one key in question are in order (`Steady`), which threads that share a key, such as an IP address, do not guarantee.
- Locks are exclusive, and a process that dies loses its lock. The mutex of the message store lets one of its operations run at a time.
- An acquired connection is released at most once. A session has one user of its objects at a time. The methods of `AuthManager` are stated for calls that nobody disturbs; `SessionProtocol` takes each locked section of them as a step of its own and shows that an undisturbed call is its sections. `InvalidationIsFinal` assumes that callers use only session ids that createSession returned.
- The "C" locale: letters are the ASCII letters.
- Reading a file gives back the characters that were written. A Windows build opens the flags file in text mode, where character 26 ends the reading; a flag or id with that character is outside the model there.

## What was found

Facts about the code that its names, comments or messages do not suggest, each with the member that proves it.

- A lease is good for 300 seconds from the *writing* of the message, not from its leasing, because the lease test reads the write time and a rename does not refresh it (`LeaseExclusive`). At every later age, and at no other, two workers may hold one message (`LeaseLasts`, `DeliveredByTwo`), unless they run under leader election (`OneNodeDelivers`). Even there a message is delivered again when a node dies between delivery and removal (`DeliveredAgainAfterDeath`), and only when a node dies (`DeliveredAtMostOnce`).
- A message in `failure` is never tried again, although the log line promises a retry (`ShelvedForGood`).
- `enqueue` reports a failure for a message that it did accept exactly when a worker has taken it out of `active` before the final existence test (`AnswerOfVerify`, `WriteMessage`), and this can happen to every message (`AcceptedButRefused`). The converse never happens, and a message whose writing was given up is never accepted later (`GivenUpForGood`).
- The envelope is read back wrongly in one family of cases only: an address that does not survive trimming, or a sender that contains `TO: ` (`AddressesSurvive`). What is delivered includes the `FROM:`, `TO:` and `---RAW---` lines in front of the raw mail, which itself is found behind the first such line unless an address brings a line `---RAW---` of its own (`RawSurvives`, `DeliveredIsMail`).
- `fetchReady` throws exactly when a listed message is gone from `inflight` at its lease test (`MailQueue.ReclaimIfExpired`, `MailQueue.FetchReady`), and nothing catches it. Any worker beside the caller can cause that by delivering its message, with no lease expired (`ListedMayVanish`). Under leader election, where alone `runOnce` is called, it never happens: nothing beside a leader's thread changes `inflight` while it works, and then `fetchReady` does not throw (`InflightStays`).
- `HaController::isLeader` still answers yes after `stop` (`FlagOutlivesStop`). It never denies a leader, it is right in every state after the thread has tried since the last start, and for a stopped controller it is right exactly when it says no (`FlagIsRight`).
- Two messages for one user that get the same millisecond as their id overwrite each other, and the first is lost although it was answered with 250 (`AcknowledgedLost`). A crash never shows half a file, whatever the ids (`CrashKeepsFinals`).
- `deleteMessage` only looks in INBOX, so a quarantined message stays for ever (`QuarantineIsForever`).
- At DATA the client need not be logged in any more: STARTTLS between MAIL and RCPT drops the login and keeps the place in the dialogue (`HandedOverAfterTls`).
- The second size guard of DATA never fires for limits below 2^63 (`TextWithinSize`), which covers every limit that the configuration allows (at most 100 MB, `src/core/config_loader.cpp:120-121`). `handleData` by itself, given a limit of 2^63, would refuse exactly the messages of two or more lines (`GuardFiresWhenItWraps`). A line that is too long ends the collection, and so does a connection that breaks off; what was read so far is stored all the same (`OverlongHandsOver`, `CutOffCollected`).
- With N concurrent acquirers the global connection limit is exceeded by up to N - 1, and for all positive limits this is reached (`ActiveBounded`, `BoundReached`), so the limit holds in every run exactly for one acquirer at most, or a zero limit (`GlobalLimitExact`). The five-minute reset lets one IP hold more connections than its limit, exactly if the server takes more than that limit at all (`ResetExceedsIpLimit`). A TLS handshake that fails on port 465 returns without a release (`src/smtp/smtp_server.cpp:239`); such connections stay open for good, and globalMax of them shut the server (`LeakedStayHeld`).
- A key is allowed twice its limit within one window length (`SlidingBoundReached`).
- An invalidated session can come back: exactly when a validation read it from the store before and caches it afterwards (`ComesBackExactly`). For ids that createSession returned this needs a cache entry that expires before the store entry, which happens when the calendar clock turns a second between the two readings of createSession (`RevokedButAccepted`); without such entries invalidation is final (`InvalidationIsFinal`).
- A session whose user name begins with a colon is accepted by the cache and refused by the store (`ColonFirstDisagrees`). Users live in the cache only and are erased five minutes after they were stored (`UsersExpire`).
- Body canonicalization throws for exactly the bodies of one character followed by a line feed (`DkimBody.CanonicalizeBodyRelaxed`, `CanonicalLines`). Despite its name it does not reduce whitespace within lines, and it gives CRLF for an empty body.
- Canonical headers are not always their own canonical form: behind an empty line a header line may begin with a space and be a field of its own, and a wanted name may begin with a space because `h=` is cut at its colons and not trimmed (`src/antispam/dkim_verifier.cpp:100-104`). `StableExactly` gives the condition, `UnstableOutput` inputs that fail.
- A DNS compression pointer strictly before itself does not guarantee that the name ends (`PointerBeforeItselfMayCircle`); 16384 jumps decide it (`EndsWithin`). Labels in front of a pointer lose the dot behind them (`DotLeftOut`). The response code is cast to an enumeration that counts differently, and is right exactly for 0, 2 and 4; code 3, the name error of section 4.1.1 of RFC 1035, reads as `Refused` (`CodeMisread`).
- A multipart delimiter that overlaps the end of a part moves the cut, even if no part contains the delimiter (`FreePiecesMayMove`).
- Flags and message ids with whitespace, or empty ones, do not survive a restart (`SaveAndLoad`).

## Model

| member | source | states |
|---|---|---|
| QueueProtocol.StepKeepsInv | src/queue/mail_queue.cpp:119-375 | Every file operation of every thread, every death, sweep and power loss keeps the queue's invariant: one directory per message, unchanged flushed content, missing messages delivered, distinct writers, and one holder while a lease runs. |
| QueueProtocol.MessagesConserved | src/queue/mail_queue.cpp:119-375 | From the step that accepts a message on, in every later state of every run, it lies whole and unchanged in exactly one of the four directories, or in none and the remote side took exactly its bytes. |
| QueueProtocol.OnlyMarkSuccessRemoves | src/queue/mail_queue.cpp:336-345 | If a message that lay in some directory is later in none, then in between a markSuccess removed it after its content had been delivered. |
| QueueProtocol.DeliveriesAreEnqueued | src/queue/retry_worker.cpp:14-49 | Whatever the remote side took is the whole content of an accepted message. |
| QueueProtocol.LeaseExclusive | src/queue/mail_queue.cpp:172-176 | Two threads hold one message only later than 300 seconds after it was written. |
| QueueProtocol.LeaseStays | src/queue/mail_queue.cpp:210-334 | While a lease runs, only its holder takes the message out of `inflight`. |
| QueueProtocol.ShelvedForGood | src/queue/mail_queue.cpp:347-375 | A message in `failure` or `permanent_fail` lies there unchanged in every later state of every run. |
| QueueProtocol.RemovedForGood | src/queue/mail_queue.cpp:336-345 | A delivered and removed message is in no directory in any later state of any run. |
| QueueProtocol.DeliveredByTwo | src/queue/mail_queue.cpp:213-229 | For every message and every age above 300 seconds there is a run in which two workers deliver it at the same time at that age. |
| QueueProtocol.LeaseLasts | src/queue/mail_queue.cpp:172-176 | Some run has two threads hold a message at a given age if and only if the age is above 300 seconds. |
| QueueProtocol.AcceptedKept | src/queue/mail_queue.cpp:21-70 | What was accepted, with its content and write time, is never changed or forgotten in any run. |
| QueueProtocol.MessagesMove | src/queue/mail_queue.cpp:212-375 | In every step of every run a message changes its directory only by the thread that reclaims, leases, gives back, buries or shelves it, and to the directory of that operation. |
| QueueProtocol.AnswerOfVerify | src/queue/mail_queue.cpp:62-67 | In every state of every run, the final existence test says no if and only if a worker has taken the message out of `active`; the message is accepted either way. |
| QueueProtocol.GivenUpForGood | src/queue/mail_queue.cpp:33-60 | A message whose writing failed before the rename is accepted in no later state of any run. |
| QueueProtocol.AcceptedButRefused | src/queue/mail_queue.cpp:62-67 | From every initial state and for every message some run reaches a negative final test for the accepted message. |
| MailQueue.MailQueue.Enqueue | src/queue/mail_queue.cpp:119-170 | With anyone running in between: an id is returned only for a message that is accepted and flushed with a text that tells a reader the sender, the recipient and the raw mail; a write failure means that the id tried was given up for good, or that the message is accepted and a worker has taken it. Undisturbed: refused for depth exactly at 100000 messages, and a refusal accepts nothing. |
| MailQueue.MailQueue.WriteMessage | src/queue/mail_queue.cpp:21-70 | With anyone running in between, success means exactly that the message was accepted and still lies in `active`; whatever the answer, an accepted message is whole and flushed. |
| MailQueue.MailQueue.CreateTempFile | src/queue/mail_queue.cpp:24-31 | Creating the temp file is one step of the protocol, and accepts nothing. |
| MailQueue.MailQueue.WriteTempFile | src/queue/mail_queue.cpp:33-41 | Writing is a step that may stop at any length; a short write goes to the failure exit. |
| MailQueue.MailQueue.FlushTempFile | src/queue/mail_queue.cpp:43-50 | Flushing is a step; a refusal goes to the failure exit. |
| MailQueue.MailQueue.PublishTempFile | src/queue/mail_queue.cpp:54-60 | The rename is the step that accepts: whole, flushed and in `active`. |
| MailQueue.MailQueue.FindMessage | src/queue/mail_queue.cpp:62-67 | The final test: the message is accepted whatever the answer, which says whether it is still in `active`. |
| MailQueue.MailQueue.FetchReady | src/queue/mail_queue.cpp:210-334 | The returned message is held by this thread and read back whole with its addresses. With anyone running in between, it throws only if a message vanished from `inflight`, and not at all while nobody else moves messages there. Undisturbed: nothing is returned only if no message with content was waiting; one waiting message goes to `inflight`, the others stay in `active` unless empty, and no message under a running lease is touched. |
| MailQueue.MailQueue.ReclaimExpired | src/queue/mail_queue.cpp:212-229 | With anyone running in between, it throws only if a message vanished from `inflight`, and not at all while nobody else moves messages there. Undisturbed, the first loop puts into `active` exactly the messages that wait there or lie in `inflight` under an expired lease. |
| MailQueue.MailQueue.ReclaimIfExpired | src/queue/mail_queue.cpp:213-228 | One round of that loop, with anyone running in between: it throws if and only if the message is gone in the state in which its write time is read. Undisturbed, exactly an expired message is renamed. |
| MailQueue.MailQueue.LeaseFirst | src/queue/mail_queue.cpp:231-334 | The second loop leases the first message with content and buries the empty ones before it. |
| MailQueue.MailQueue.TakeLease | src/queue/mail_queue.cpp:236-267 | The existence test and the rename are two operations; success means that this thread holds the lease. |
| MailQueue.MailQueue.ReadLeased | src/queue/mail_queue.cpp:270-295 | An unreadable message goes back to `active`, an empty one to `permanent_fail`, any other is held with its whole content. |
| MailQueue.MailQueue.MarkSuccess | src/queue/mail_queue.cpp:336-345 | Test and removal are two operations; if the lease still runs afterwards the message is gone. |
| MailQueue.MailQueue.MarkFailed | src/queue/mail_queue.cpp:347-375 | One rename whose failure is ignored; if the lease still runs afterwards and nothing was refused, the message is shelved. |
| MailQueue.MailQueue.RunOnce | src/queue/retry_worker.cpp:10-55 | One message is fetched, delivered with the fallback addresses, and marked by the answer; while the lease runs the mark takes effect. It dies of an exception only if a message vanished from `inflight`, and not while nobody else moves messages there. |
| MailQueue.DeliveredIsMail | src/queue/retry_worker.cpp:14-32 | What the remote side ever takes under an id tells its reader the same sender, recipient and raw mail as the text that enqueue got accepted under it. |
| MailQueue.ListedMayVanish | src/queue/mail_queue.cpp:212-216 | For every message some run puts it into `inflight` under a running lease while another worker is idle, and other threads then remove it before that worker's next step. |
| Envelope.AddressesSurvive | src/queue/mail_queue.cpp:297-324 | A worker reads back exactly the sender and recipient given to enqueue, for any raw mail, if and only if both are single lines without trailing space or CR and the sender's own `TO: ` does not name somebody else. |
| Envelope.RawSurvives | src/queue/mail_queue.cpp:149-153 | The raw mail is read back exactly, as the text behind the first line `---RAW---`, for any addresses and mail, if and only if neither address brings such a line; the file always ends with that line and the mail. |
| Envelope.ReadField | src/queue/mail_queue.cpp:303-324 | The loop-and-search code computes the rest of the first line that has the tag, trimmed at its end. |
| Envelope.FieldIsClean | src/queue/mail_queue.cpp:303-324 | Whatever is read back is a single line without trailing space or CR. |
| Leadership.HaStepKeepsInv | src/ha/ha_controller.cpp:22-68 | Every step of every node keeps: the lock is held by exactly the node that believes so, and only that node works. |
| Leadership.OneWorker | src/ha/ha_controller.cpp:49-68 | In every state of every run at most one node is inside runOnce, it holds the lock, and reports itself leader. |
| Leadership.LeadershipEndsByReleaseOrCrash | src/ha/leader_election.cpp:59-73 | If a node led and later does not, in between it released the lock after its thread had ended, or it died. |
| Leadership.FlagOutlivesStop | src/ha/ha_controller.cpp:32-47 | There is a run after which the controller's flag says leader while nobody holds the lock. |
| Leadership.FlagIsRight | src/ha/ha_controller.cpp:22-68 | In every state of every run: whoever leads has the flag up; the flag is right if and only if it is down or the thread has tried since the last start; a stopped controller's flag is right if and only if it is down. |
| Leadership.LeaderElection.TryBecomeLeader | src/ha/leader_election.cpp:19-53 | Success exactly for a leader, or when nobody has the lock and the system grants it; then the lock is this node's, otherwise it is unchanged. |
| Leadership.LeaderElection.ReleaseLeadership | src/ha/leader_election.cpp:59-73 | The lock is freed exactly if this node had it. |
| Leadership.HaController.Round | src/ha/ha_controller.cpp:49-68 | runOnce is entered exactly by a running node that gets or has the lock, and the lock is then its own. |
| Leadership.HaController.EndStop | src/ha/ha_controller.cpp:36-39 | The lock is given up only after the thread has ended. |
| Leadership.RoundRefines | src/ha/ha_controller.cpp:52-64 | A round of the controller is the protocol's test followed, while running, by its try. |
| Cluster.OneNodeDelivers | src/ha/ha_controller.cpp:49-68 | In no run of nodes, enqueuers, deaths and power losses are two nodes between two operations of fetching, delivering or marking, expired leases or not; the one that is holds the lock. |
| Cluster.DeliveredAtMostOnce | src/queue/retry_worker.cpp:32-49 | While no node dies, the remote side never takes a message that it took before; enqueuing threads outside the nodes may die. |
| Cluster.DeliveredAgainAfterDeath | src/queue/retry_worker.cpp:32-39 | From every initial state and for every message, a node dies between delivery and removal and the next leader comes to deliver the same message again. |
| Cluster.InflightStays | src/ha/ha_controller.cpp:49-68 | While a node is inside runOnce, whatever happens beside its thread, deaths of other nodes and a stop included, leaves it working and the messages in `inflight` as they are; to the queue it is a run of other threads. |
| Cluster.ClusterStepKeepsInv | src/ha/ha_controller.cpp:49-68 | Every event of the cluster keeps the invariants of queue and leadership and that only leaders work. |
| StoreProtocol.ReachableInv | src/storage/mail_store.cpp:18-202 | In every state of every run, with crashes, sweeps and replies anywhere: final paths hold complete flushed messages, nothing stored is missing unless deleted, and only stored messages are returned and acknowledged. |
| StoreProtocol.AcknowledgedKept | src/smtp/smtp_session.cpp:573-594 | A message answered with 250 is whole in INBOX or Quarantine in every later state of every run, with the bytes it was stored with, unless deleteMessage found it in INBOX. |
| StoreProtocol.CrashShowsWholeFiles | src/storage/mail_store.cpp:64-113 | Whatever a crash at any point and the startup sweep leave at a final path is a complete message stored under that path. |
| StoreProtocol.CrashKeepsFinals | src/storage/mail_store.cpp:18-113 | For any ids, a crash at any point and the startup sweep leave every final path exactly as it was, and no temp file. |
| StoreProtocol.FinalsChangeWhole | src/storage/mail_store.cpp:64-152 | For any ids, in every step of every run a final path keeps its complete content, gets a complete new one, or is moved or removed as a whole. |
| StoreProtocol.OnlyDeleteRemoves | src/storage/mail_store.cpp:138-152 | If a message was whole and later is not, in between a deleteMessage found it in INBOX. |
| StoreProtocol.QuarantineIsForever | src/storage/mail_store.cpp:119-152 | A quarantined message is in Quarantine with the same text in every later state of every run. |
| StoreProtocol.CollisionLosesMessage | src/storage/mail_store.cpp:172-188 | Publishing under a used id keeps the earlier message readable if and only if it was another key, had a copy in Quarantine, or had the same text. |
| StoreProtocol.AcknowledgedLost | src/storage/mail_store.cpp:172-188 | For any user, clock reading and two different messages there is a run in which the first is acknowledged and then in no file, without any deletion. |
| StoreProtocol.IdsCollide | src/storage/mail_store.cpp:40-45 | Generated ids tell their clock reading, so two are equal if and only if the readings are. |
| MailStore.MailStore.AtomicWriteFile | src/storage/mail_store.cpp:64-113 | The final path gets the whole new content, flushed, or keeps what it had; no other final path changes; every state on the way is a state of the protocol. |
| MailStore.MailStore.PublishTempFile | src/storage/mail_store.cpp:97-112 | The rename puts the flushed text at the final path, or nothing changes there. |
| MailStore.MailStore.Store | src/storage/mail_store.cpp:154-202 | A non-empty id is returned only when a text that tells a reader the message and its raw data is whole and flushed at its path; an empty one means that no final path changed. |
| StoredText.Render | src/storage/mail_store.cpp:175-185 | The loop writes the From line, a To line for every recipient in order, the Message-ID, an empty line and the raw text. |
| StoredText.StoredRead | src/storage/mail_store.cpp:175-185 | A reader who cuts the stored text at its line breaks finds the sender, every recipient in order, the id, and the raw data behind the first empty line, for any message, if and only if no line break hides in sender, recipients or id; the text always ends with the raw data. |
| StoredText.PlainIsReadBack | src/storage/mail_store.cpp:172-185 | Without line feeds in sender and recipients the stored text is always read back as it was meant. |
| MailStore.MailStore.StoreAndReply | src/smtp/smtp_session.cpp:573-612 | 250 is answered only after a text that tells a reader the message is whole and flushed in INBOX; 451 acknowledges nothing. |
| MailStore.MailStore.MoveToQuarantine | src/storage/mail_store.cpp:119-136 | A rename from INBOX to Quarantine or no change at all. |
| MailStore.MailStore.DeleteMessage | src/storage/mail_store.cpp:138-152 | Removes the INBOX file only, and a missing file is no failure. |
| MailStore.MailStore.RecoverOrphanedTempFiles | src/storage/mail_store.cpp:18-38 | Removes temp files only: all of them, but for those whose removal was refused. |
| MailStore.EveryCrashPointSafe | src/storage/mail_store.cpp:18-113 | At every state that a sequence of operations passed through, a crash followed by the sweep leaves every acknowledged and undeleted message whole. |
| SmtpFraming.ReceiveLine | src/smtp/smtp_session.cpp:114-156 | The receive loop computes the line up to LF without CRs, gives up behind three faults in a row or 1024 characters, and leaves the rest unread. |
| SmtpFraming.AnyLineRead | src/smtp/smtp_session.cpp:126-153 | Whatever stands before a line feed is read without its CRs if that is at most 1024 characters, faults or not; a longer line fails and is answered as too long. |
| SmtpFraming.FaultsRead | src/smtp/smtp_session.cpp:114-156 | Three faults in a row change nothing; the fourth, or the end of the connection, ends the reading. |
| SmtpFraming.CollectData | src/smtp/smtp_session.cpp:522-571 | The DATA loop collects unstuffed lines up to the final dot, counting sizes in 64 bits. |
| SmtpFraming.DataRoundTrip | src/smtp/smtp_session.cpp:522-571 | Every list of lines within the limits, sent dot-stuffed with CRLF and a final dot (section 4.5.2 of RFC 5321), is collected line by line and the following bytes stay unread, with up to three receive faults in a row anywhere. |
| SmtpFraming.SizeDecides | src/smtp/smtp_session.cpp:537-542 | A message is refused as too big if and only if its lines, two octets counted for every line end, exceed the limit. |
| SmtpFraming.CutOffCollected | src/smtp/smtp_session.cpp:532-571 | When the connection ends in the middle of DATA, the lines read so far are collected as if the final dot had come. |
| SmtpFraming.LinesRecovered | src/smtp/smtp_session.cpp:552-553 | The collected text determines the lines. |
| SmtpFraming.TextWithinSize | src/smtp/smtp_session.cpp:537-550 | For limits below 2^63, among them all that the configuration allows, neither counter wraps, the text never exceeds the counted size, and the second size guard never fires. |
| SmtpFraming.GuardFiresWhenItWraps | src/smtp/smtp_session.cpp:544-550 | handleData alone, at a limit of 2^63 whose double wraps to zero: that guard refuses a message if and only if it has at least two lines. |
| SmtpProtocol.EveryMessageFits | src/smtp/smtp_session.cpp:268-364 | For every command sequence each message handed to the store has as recipients exactly the accepted RCPT arguments since the last accepted MAIL, DATA, STARTTLS or RSET, in order and non-empty; its sender is that MAIL's argument or empty if one of the others came after it; a login came earlier, and is still in force exactly if TLS did not come up after that MAIL. |
| SmtpProtocol.CommandKeepsAgreement | src/smtp/smtp_session.cpp:268-364 | After every command, whatever its verb and arguments, the session's sender, recipients and login are what the transcript of commands and replies says. |
| SmtpProtocol.SessionAgrees | src/smtp/smtp_session.cpp:268-364 | The same over every whole session. |
| SmtpProtocol.RecentIsLongest | src/smtp/smtp_session.cpp:415-420 | The stretch of transcript that counts for recipients begins behind the last boundary and contains none. |
| SmtpProtocol.HandedOverAfterTls | src/smtp/smtp_session.cpp:415-420 | There is a session in which a message is handed over although nobody is logged in. |
| SmtpAnswers.SessionAnswers | src/smtp/smtp_session.cpp:268-612 | In every session, every command gets exactly the replies that the commands and replies before it, the configuration, handshake, login and store call for: 503 out of place, 530 without TLS or login, 454, 220, 235, 535, 451, 250, and at DATA the store's answer. |
| SmtpAnswers.ReplyTellsTruth | src/smtp/smtp_session.cpp:586-611 | A DATA that handed a message over ends with 250 if the store took it and 451 if not, and 250 is answered to DATA in no other case. |
| SmtpAnswers.HandedOverTls | src/smtp/smtp_session.cpp:312-344 | Where TLS is required, every message handed over comes in a session that began on TLS or whose STARTTLS succeeded earlier. |
| SmtpAnswers.DataHandsOver | src/smtp/smtp_session.cpp:522-594 | Lines sent in wire form are handed over exactly as they are, with the sender and recipients of the session, if and only if they are within the size limit; otherwise the answer is 552. |
| SmtpAnswers.OverlongHandsOver | src/smtp/smtp_session.cpp:114-156 | A line over 1024 characters is answered with 500 and ends the message, whose earlier lines are handed over all the same. |
| SmtpAnswers.ClosedForGood | src/smtp/smtp_session.cpp:614-618 | Nothing is answered any more after QUIT or a failed handshake. |
| SmtpAnswers.HandedIsPlain | src/smtp/smtp_session.cpp:516-521 | When command lines have no line break, as lines read from the connection have none, neither have sender and recipients of any message handed over. |
| SmtpAnswers.VerbByName | src/smtp/smtp_session.cpp:268-345 | A word is a command exactly if it is its name in any case of letters. |
| SmtpAnswers.LineCut | src/smtp/smtp_session.cpp:183-191 | A command line is cut at its first space into the word and everything behind that space. |
| SmtpSession.SmtpSession.HandleStarttls | src/smtp/smtp_session.cpp:370-441 | Clears login, sender and recipients and keeps the state; a failed handshake closes the connection. |
| SmtpSession.SmtpSession.HandleAuth | src/smtp/smtp_session.cpp:474-501 | Logs in once; a wrong password is answered 535, a failing check 451. |
| SmtpSession.SmtpSession.HandleData | src/smtp/smtp_session.cpp:514-613 | Collects the text, gives the message to the store, and replies 250 exactly if the message then lies flushed in its INBOX with a text that tells a reader what was handed over. |
| SmtpSession.SmtpSession.HandleCommand | src/smtp/smtp_session.cpp:268-364 | Split, dispatch and handler carry out the specified command, with the store's real answer at DATA. |
| SmtpSession.SmtpSession.Run | src/smtp/smtp_session.cpp:197-248 | The command loop ends, every message it hands over fits the transcript, and every 250 at DATA stands for an acknowledged message of that mailbox in the store. |
| AdmissionProtocol.StepKeepsInv | src/core/connection_manager.cpp:59-106 | Every step of every acquirer and releaser keeps the global bound and the exact account of every IP. |
| AdmissionProtocol.ActiveBounded | src/core/connection_manager.cpp:59-93 | In every interleaving of N acquirers the active connections are between 0 and globalMax + N - 1, so one acquirer never exceeds globalMax. |
| AdmissionProtocol.BoundReached | src/core/connection_manager.cpp:59-93 | From every initial state, for every N and all positive limits, some interleaving reaches globalMax + N - 1. |
| AdmissionProtocol.GlobalLimitExact | src/core/connection_manager.cpp:59-93 | For all limits, zero included, the global limit holds in every state of every run if and only if there is at most one acquirer or one of the limits is zero. |
| AdmissionProtocol.IpCountExact | src/core/connection_manager.cpp:69-106 | The count of an IP is within its limit and equals the connections it holds less those dropped by resets and not released since. |
| AdmissionProtocol.CountTrueWithoutResets | src/core/connection_manager.cpp:69-106 | In a run without such a reset the count is the number held, which therefore respects the limit. |
| AdmissionProtocol.ResetExceedsIpLimit | src/core/connection_manager.cpp:74-79 | For all limits, from every initial state and for every IP, some run lets it hold more open connections than its limit if and only if there is an acquirer, no limit is zero and globalMax + N - 1 is above that limit. |
| AdmissionProtocol.HeldAfter | src/core/connection_manager.cpp:59-106 | Only counting and uncounting change what an IP holds, each by one. |
| AdmissionProtocol.AttemptJudged | src/core/connection_manager.cpp:69-90 | In every run, an attempt is judged as if its IP held nothing if and only if no earlier attempt from that IP, admitted or refused, ran its locked section within the last 300 seconds, otherwise by the count; it is counted exactly if that is below the limit. |
| AdmissionProtocol.LeakedStayHeld | src/smtp/smtp_server.cpp:228-239 | Open connections whose release never starts stay open in every later state of every run, and globalMax of them make every later global test refuse. |
| ConnectionManager.ConnectionManager.TryAcquireConnection | src/core/connection_manager.cpp:59-93 | A run of the protocol with anyone in between; undisturbed it admits exactly if both limits leave room, counting an IP not seen for five minutes as unused, and changes only this IP's count. |
| ConnectionManager.ConnectionManager.CountForIp | src/core/connection_manager.cpp:69-89 | The locked section is one step, which admits exactly if the effective count is below the limit. |
| ConnectionManager.ConnectionManager.ReleaseConnection | src/core/connection_manager.cpp:95-106 | The two decrements are two steps; undisturbed each counter of this connection falls by one, the IP's not below zero. |
| ConnectionManager.ConnectionManager.GetConnectionsForIP | src/core/connection_manager.cpp:108-112 | The answer is at most the limit and at most the connections held. |
| ConnectionManager.AcceptRound | src/smtp/smtp_server.cpp:174-215 | With the accept loop as the only acquirer the active connections never exceed the limit; undisturbed a connection is served exactly if limits and rate allow it. |
| RateLimiter.WindowBound | src/core/rate_limiter.cpp:12-34 | Over any history on any keys and any clock readings, one window allows a key at most the limit plus the give-backs in that window. |
| RateLimiter.SlidingBound | src/core/rate_limiter.cpp:12-34 | Any closed interval of the window's length allows a key whose own hits are in order at most twice the limit plus the give-backs between its first and last hit of that interval. |
| RateLimiter.SlidingBoundReached | src/core/rate_limiter.cpp:24-34 | Twice the limit is reached. |
| RateLimiter.RefusedExactly | src/core/rate_limiter.cpp:12-34 | After a quiet time and n hits at once, the next hit is refused if and only if n has reached the limit and no more than the span has passed; a give-back makes room for exactly one. |
| RateLimiter.LimitsExactly | src/core/rate_limiter.cpp:3-59 | In numbers: 30 connections and 120 commands in 60 seconds, and refusal of logins after five failures for 600 seconds, to the nanosecond. |
| RateLimiter.CommandLimit | src/core/rate_limiter.cpp:24-34 | allowCommand says yes at most 120 times per window in any history, and at most 240 times in any minute if the session's own hits are in order. |
| RateLimiter.ConnectionLimit | src/core/rate_limiter.cpp:12-22 | allowConnection says yes at most 30 times per window plus the releases in it, and at most 60 times in any minute plus the releases in it if the address's own hits are in order. |
| RateLimiter.CountIsHits | src/core/rate_limiter.cpp:36-46 | Without give-backs the counter of a key whose own hits are in order is exactly the number of hits since its window began. |
| RateLimiter.RefusalIsEarned | src/core/rate_limiter.cpp:48-59 | Whoever allowAuth refuses failed at least five times in the last ten minutes, whatever other addresses do. |
| RateLimiter.RateLimiter.AllowConnection | src/core/rate_limiter.cpp:12-22 | The table stays that of the history, and the answer is the specified one for this hit. |
| RateLimiter.RateLimiter.AllowCommand | src/core/rate_limiter.cpp:24-34 | The same for commands. |
| RateLimiter.RateLimiter.AllowAuth | src/core/rate_limiter.cpp:48-59 | Refuses exactly within a window that has five failures. |
| RateLimiter.RateLimiter.ReleaseConnection | src/core/rate_limiter.cpp:60-68 | Takes one hit back from a positive counter and touches nothing else. |
| SessionCache.ValidationIsTheTable | src/core/distributed_auth_manager.cpp:133-175 | In every run of session and user operations with one clock reading per call and user names without a colon, validateSession gives the answer and user of one plain table of sessions, which is what the store alone gives. |
| SessionCache.StepKeepsAgreement | src/core/distributed_auth_manager.cpp:280-409 | Every operation keeps cache and store agreeing on every session in value and expiry. |
| SessionCache.ValidationChangesNothing | src/core/distributed_auth_manager.cpp:147-167 | While they agree, validation changes neither and the store is never asked. |
| SessionCache.KeysApart | src/core/distributed_auth_manager.cpp:456-466 | A user key never equals a session key. |
| SessionCache.SessionKeysApart | src/core/distributed_auth_manager.cpp:460-466 | Different sessions have different keys. |
| SessionCache.PrefixRecovers | src/core/distributed_auth_manager.cpp:318-322 | The user is read back from `user:info` if and only if it has no colon. |
| SessionCache.SplitClockBreaksAgreement | src/core/distributed_auth_manager.cpp:137-143 | With separate clock readings the cache follows the store for all later times if and only if the two expiry times are equal. |
| SessionCache.ColonFirstDisagrees | src/core/distributed_auth_manager.cpp:150-162 | Cache and store agree on a new session if and only if its user name does not begin with a colon. |
| SessionCache.UsersExpire | src/core/distributed_auth_manager.cpp:400-408 | Whatever sessions do in between, a user survives the next cleanup if and only if that is at most five minutes after it was stored. |
| SessionCache.CleanupIsExact | src/core/distributed_auth_manager.cpp:387-399 | A cleanup leaves of the sessions in the store exactly the unexpired ones of the table. |
| SessionCache.FilledForFiveMinutes | src/core/distributed_auth_manager.cpp:147-167 | A session that only the store knows is accepted and then by the cache for exactly 300 seconds, whatever becomes of the store. |
| SessionCache.UserGone | src/core/distributed_auth_manager.cpp:113-121 | Removing a user takes that entry out of the cache and no other. |
| SessionProtocol.ComesBackExactly | src/core/distributed_auth_manager.cpp:147-175 | In every reachable state in which a session is in neither table and not being created, some later state accepts it if and only if a validation has read it from the store and not cached it yet. |
| SessionProtocol.InvalidationIsFinal | src/core/distributed_auth_manager.cpp:133-175 | In every interleaving of the locked sections of calls with returned ids, no validation accepts a session once its invalidation has returned, if and only if cache entries may not expire before their store entries. |
| SessionProtocol.RevokedButAccepted | src/core/distributed_auth_manager.cpp:133-175 | From every initial state, for every user and every cache time below the store time, some run has an invalidated session accepted. |
| SessionProtocol.CreatedInSections | src/core/distributed_auth_manager.cpp:133-145 | Undisturbed, the sections of createSession make of the tables what the call is specified to make of them. |
| SessionProtocol.ValidatedInSections | src/core/distributed_auth_manager.cpp:147-167 | The same for validateSession, with the same answer. |
| SessionProtocol.InvalidatedInSections | src/core/distributed_auth_manager.cpp:169-175 | The same for invalidateSession. |
| AuthManager.DistributedAuthManager.CreateSession | src/core/distributed_auth_manager.cpp:133-145 | Writes store and cache with the same value and expiry, or nothing for an unhealthy manager or an empty user. |
| AuthManager.DistributedAuthManager.ValidateSession | src/core/distributed_auth_manager.cpp:147-167 | The cache first, then the store, whose answer is cached. |
| AuthManager.DistributedAuthManager.InvalidateSession | src/core/distributed_auth_manager.cpp:169-175 | The session leaves store and cache. |
| AuthManager.DistributedAuthManager.CleanupExpiredCache | src/core/distributed_auth_manager.cpp:387-409 | In any order of visiting, exactly the expired sessions and cache entries are gone. |
| AuthManager.DistributedAuthManager.GetSessionFromRedis | src/core/distributed_auth_manager.cpp:310-323 | The two halves of a stored value in time, or two empty strings. |
| AuthManager.DistributedAuthManager.RemoveUser | src/core/distributed_auth_manager.cpp:113-121 | Removes a user that is there, and says whether there was one. |
| Base64Decoder.Decode | src/mime/mime_decoder.cpp:38-54 | The pass with the never-masked wrapping accumulator gives the bytes of the groups of four alphabet characters. |
| Base64Decoder.Absorbs | src/mime/mime_decoder.cpp:44-51 | One more character puts out exactly the byte it completes, although the accumulator has wrapped any number of times. |
| Base64Decoder.RoundTrip | src/mime/mime_decoder.cpp:38-54 | Decoding inverts the encoding of section 4 of RFC 4648 for byte strings of any length. |
| Base64Decoder.NoiseIgnored | src/mime/mime_decoder.cpp:45 | Characters outside the alphabet may be inserted anywhere without changing the result. |
| Base64Decoder.OnlyAlphabetMatters | src/mime/mime_decoder.cpp:9-11 | Texts with the same alphabet characters decode to the same bytes. |
| Base64Decoder.LettersAreTable | src/mime/mime_decoder.cpp:40-41 | The letters are those of the table in its order. |
| Base64Decoder.SameBits | src/mime/mime_decoder.cpp:44-49 | Four sextets and their three bytes are the same 24 bits, most significant first. |
| MimeParts.ChildTexts | src/mime/mime_parser.cpp:73-88 | The boundary loop ends and hands on the pieces between two delimiters, in order; without a boundary none. |
| MimeParts.ChildrenCounted | src/mime/mime_parser.cpp:73-88 | There is one child fewer than delimiter occurrences found from left to right. |
| MimeParts.ChildrenRebuild | src/mime/mime_parser.cpp:81-82 | The text in front, the children joined by the delimiter, and the text behind rebuild the content. |
| MimeParts.JoinAndSplit | src/mime/mime_parser.cpp:73-88 | Joining pieces by the delimiter and cutting again gives the pieces if and only if the delimiter occurs only at the joints (section 5.1.1 of RFC 2046). |
| MimeParts.PiecesOnlyAtJoints | src/mime/mime_parser.cpp:76-82 | The pieces of any content have the delimiter only at their joints. |
| MimeParts.FreePiecesMayMove | src/mime/mime_parser.cpp:74-82 | With a boundary of dashes every piece that ends in a dash moves the cut, so pieces without the delimiter are not enough for that. |
| DkimBody.CanonicalizeBodyRelaxed | src/antispam/dkim_canon.cpp:28-47 | The two loops compute the text without CRs and trailing LFs, LFs as CRLF, one CRLF at the end, and throw exactly for one character followed by at least one LF. |
| DkimBody.SameForm | src/antispam/dkim_canon.cpp:28-47 | Two bodies that do not throw have the same canonical form if and only if they agree without CRs and trailing LFs. |
| DkimBody.Idempotent | src/antispam/dkim_canon.cpp:28-47 | Canonicalizing the canonical form gives it again if and only if the reduced text is not a single character. |
| DkimBody.CanonicalLines | src/antispam/dkim_canon.cpp:28-47 | For a body of CRLF lines the form is the lines without the empty ones at the end, CRLF if none is left, and an exception if one line of one character is left. |
| DkimHeaders.CompressWsp | src/antispam/dkim_canon.cpp:13-26 | The loop writes one space for every whitespace run. |
| DkimHeaders.CompressedIsJoined | src/antispam/dkim_canon.cpp:13-26 | For a text without leading whitespace this is its words joined by single spaces, and a space for trailing whitespace. |
| DkimHeaders.CanonicalValue | src/antispam/dkim_canon.cpp:77-80 | Trimming both ends and compressing leaves the words joined by single spaces. |
| DkimHeaders.ReadLogicalLines | src/antispam/dkim_canon.cpp:54-68 | The reading loop computes the unfolded lines. |
| DkimHeaders.CanonicalizeHeadersRelaxed | src/antispam/dkim_canon.cpp:49-87 | For the wanted names from the last to the first, the last field of that name, in lower case with its words. |
| DkimHeaders.LastFieldIsLast | src/antispam/dkim_canon.cpp:72-84 | The chosen field has the name and none behind it has; nothing is chosen if and only if no field has the name. |
| DkimHeaderLaws.FoundInAnyCase | src/antispam/dkim_canon.cpp:70-84 | A wanted name finds the last line whose name before the first colon agrees with it apart from the case of ASCII letters, and nothing if and only if there is none. |
| WordLists.WordsKeepText | src/antispam/dkim_canon.cpp:13-26 | The words of a value one after the other are its characters without whitespace, none lost, added or moved. |
| DkimHeaderLaws.FoldingInvariant | src/antispam/dkim_canon.cpp:58-67 | Any whitespace run in a header value may be replaced by a folded line break followed by whitespace, or back, without changing the canonical headers (section 3.4.2 of RFC 6376). |
| DkimHeaderLaws.OutputIsNormal | src/antispam/dkim_canon.cpp:77-81 | Every output line is a name without letters from A to Z, a colon, and a value without tabs, double spaces or whitespace at its ends. |
| DkimStability.StableExactly | src/antispam/dkim_canon.cpp:49-87 | Canonicalizing the CRLF-joined output for the same names changes nothing if and only if, counting every output line that begins with a space as a continuation of the line before it, each field put out has a line of its own and the last such line of its name is not continued. |
| DkimStability.UnstableOutput | src/antispam/dkim_canon.cpp:62-67 | A field that begins with a space, put out directly behind another, becomes part of it: the output is then not its own canonical form. |
| DkimStability.OutputIsStable | src/antispam/dkim_canon.cpp:49-87 | Canonicalizing the CRLF-joined output for the same names changes nothing if no wanted name begins with whitespace, or for any names if no logical line does. |
| DnsPacket.ReadName | src/dns/dns_packet.cpp:17-32 | Loop and recursion compute the specified name and the offset behind it, or that a read leaves the buffer. |
| DnsPacket.EndsWithin | src/dns/dns_packet.cpp:22-26 | A name ends if and only if it does so within 16384 jumps. |
| DnsPacket.EndlessJumps | src/dns/dns_packet.cpp:22-26 | A name is given up if and only if one more pointer than allowed leads on. |
| DnsPacket.BackwardEnds | src/dns/dns_packet.cpp:22-26 | A name ends when every pointer that it really goes through aims before the first label of the name it ends, whatever else is in the buffer. |
| DnsPacket.PointerBeforeItselfMayCircle | src/dns/dns_packet.cpp:22-26 | A pointer strictly before itself may lead round for ever. |
| DnsPacket.ParseDnsResponse | src/dns/dns_packet.cpp:34-74 | The two loops over the moving offset compute the specified packet, with id, response code and number of answers as the header bytes say, high byte first. |
| DnsPacket.ReadAnswer | src/dns/dns_packet.cpp:53-70 | One answer: name, type, ttl, length and the data for A and TXT; an address is told by its text as the four bytes that end the record, in their order, and the ttl as the bytes in front of them, high byte first. |
| DnsPacket.AddressRead | src/dns/dns_packet.cpp:60-64 | The pieces of a shown address between its dots are, as numbers from left to right, the four bytes in their order. |
| DnsWire.ResponseRoundTrip | src/dns/dns_packet.cpp:34-74 | Parsing the wire form of any well-formed response (any number of questions, A, single-string TXT and other answers, names in full or bare backward pointers, sections 4.1 and 4.1.4 of RFC 1035) gives back id, response code, names, types, ttls and data. |
| DnsWire.ResponseTells | src/dns/dns_packet.cpp:34-74 | Read back without the functions that show names and data: every answer has the ttl and type sent, the four bytes of its address in their order or the bytes of its text, and the labels of its name as the pieces between dots if no label has one. |
| DnsWire.MeaningRead | src/dns/dns_packet.cpp:17-32 | A place that holds a name or points back to one is read as that name, within as many jumps as its offset. |
| DnsWire.DotLeftOut | src/dns/dns_packet.cpp:25 | Labels in front of a pointer are read right if and only if there are none or the target is empty. |
| DnsWire.CodeMisread | src/dns/dns_packet.cpp:40 | The response code parsed from the wire form of a well-formed response, cast to the enumeration of `src/dns/dns_types.h`, names what section 4.1.1 of RFC 1035 means by it if and only if it is 0, 2 or 4. |
| DnsWire.DottedInjective | src/dns/dns_packet.cpp:61-64 | Different addresses are shown differently. |
| FlagsIndex.SaveAndLoad | src/imap/flags_index.cpp:18-91 | For any order of writing, loading the saved file gives the map back if and only if no id and no flag is empty or holds whitespace. |
| FlagsIndex.LoadedIsClean | src/imap/flags_index.cpp:29-44 | Whatever is loaded has no empty id or flag and none with whitespace. |
| FlagsIndex.FlagsIndex.LoadMailbox | src/imap/flags_index.cpp:18-45 | The reading loop replaces this user's map by that of the file, or by nothing when there is no file. |
| FlagsIndex.FlagsIndex.GetFlags | src/imap/flags_index.cpp:47-58 | The flags of a message, none for an unknown user or message. |
| FlagsIndex.FlagsIndex.AddFlag | src/imap/flags_index.cpp:60-65 | Adds the flag to this message of this user and to no other, and keeps the map clean. |
| FlagsIndex.FlagsIndex.Save | src/imap/flags_index.cpp:67-91 | The file gets a line for every message with all its flags, in some order; nothing is written if it cannot be opened. |
| FlagsIndex.Extracted | src/imap/flags_index.cpp:32-41 | Reading word by word gives exactly the pieces between whitespace. |
| FlagsIndex.Restart | src/imap/flags_index.cpp:18-91 | After a save and a restart getFlags answers for every message as before. |
| LogRotation.FilesAreHistory | src/core/logger.cpp:63-118 | After any run from an empty directory, with restarts and failing opens, files 6 down to 1 and the current one concatenate to what was written less what was dropped from its front, and the numbered files are 1 to k. |
| LogRotation.StepKeepsHistory | src/core/logger.cpp:34-118 | Each operation appends what it writes at the new end and drops only the oldest file's lines at the old one. |
| LogRotation.ShiftDropsOldest | src/core/logger.cpp:73-85 | The renaming loop loses the lines of file 6 and nothing else, and leaves no gap. |
| LogRotation.ShiftMovesUp | src/core/logger.cpp:74-85 | After the renamings every number holds what the number before it held. |
| LogRotation.FilesAreBounded | src/core/logger.cpp:63-118 | No line is ever added to a file of 100 MB or more, restarts included. |
| LogRotation.Logger.RotateIfNeeded | src/core/logger.cpp:63-90 | The loop over the numbers carries out the specified renamings, only for an open and full log. |
| LogRotation.Logger.Log | src/core/logger.cpp:95-118 | A message below the level changes nothing; any other is written behind a rotation if one is due. |
| LogRotation.Logger.SetFile | src/core/logger.cpp:34-45 | Opening takes over the size of the file that is there. |
| LogRotation.LevelsWritten | src/core/logger.cpp:95-97 | A logger writes at Debug all levels, at Info all but Debug, at Warn Warn and Error, at Error Error. |
| LogRotation.LineTells | src/core/logger.cpp:120-129 | A line determines its time, level and message. |

## Left out

- Sockets, TLS handshakes, password checks and remote deliveries: their outcomes are inputs.
- Reply texts, log texts and metrics; the capability lines of EHLO carry no reply code in the model.
- Exceptions for lack of memory, exceptions caught around a whole command, and the idle timeout's clock: the command loop may end at any command for a timeout.
- The circuit breaker, resource estimates, and changes of the limits while connections are open; an operation that waits for capacity.
- 32-bit overflow of the connection and rate counters.
- Several copies of the same path through different spellings of a user name, and user names with path separators.
- `list` and the count of ready messages of the queue, and the scans that runOnce starts after marking.
- Quoted-printable, the extraction of header maps and of the boundary parameter, and the decoding of the child texts, which include the headers of the child.
- DKIM signing and verification, SPF, DMARC, IMAP sessions, threat intelligence, the outbound client: foreign code, live lookups, or single guards.
- Renames and removals in the log that throw, and two processes logging to one file.
- The bytes that the DNS parser reads outside its buffer: the model stops where the program's behaviour is undefined.
- `isalnum` of characters above 127, whose behaviour the language leaves open for `char`: taken to be false.
- DnsPacket.ReadName: gives up behind a number of jumps, which the recursion of the code does not; `EndsWithin` shows that giving up behind 16384 means that the recursion never ends.
