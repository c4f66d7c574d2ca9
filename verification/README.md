# Dscuss: a verified model

Dscuss is a peer-to-peer discussion network. Every node keeps users, messages and moderators'
operations in its own database, and exchanges them with its peers over encrypted connections. This
project models the parts of the program where state, branching and several parties meet, and proves
what they keep:

* **Receiving and sending one entity** (`Receiving`, `Sending`). One entity is announced; the receiver
  requests it and then, one by one, whatever it turns out to depend on, re-checks the whole buffer after
  each arrival, and finally stores the buffer, drops it, or accuses the sender. The state objects are
  classes with the loops of the program; each is proved equal to a function of what it found, and the
  theorems are about those functions (`ReceivingRuns`, `HonestExchange`, `Acceptance`): when nobody is accused, and
  exactly what is stored, dropped or accused.
* **Many peers, one database** (`Commits`). Checks and single insertions of any number of peers interleave;
  what can be read, and when the filter halts, is said exactly for every moment in between.
* **Two peers on one connection** (`Protocol`, `Turns`, `PeerStates`). A step machine with two queues, from the
  handshake through both syncs to idle exchanges and collisions; the order of the packets over every run,
  and what makes a peer give up (`Turns`); when nobody does (`Protocol`); and the proof that performing a
  state of the program is a row of the machine's steps.
* **What an acknowledgement is worth** (`Deliveries`). What is acknowledged is stored at the other side, or was
  dropped there, over every run.
* **When an honest announcement is refused** (`Announcements`, `LongThreads`, `Examples`). Observers are told of
  each entity as it is inserted, so a message may be announced before its author or parent is stored; and a
  thread may be too long for the receiver's buffer. When exactly this breaks an exchange.
* **Syncing** (`ActiveSync`, `SyncRuns`, `Histories`). What is offered after a reconnect, in which order, what
  of it is acknowledged before Done, and why it ends.
* **Subscriptions and topics** (`Subscriptions`, `Topics`, `Strings`). Covering, difference, the list of
  advertised combinations, printing and parsing.
* **Threads and moderation** (`Threads`, `ThreadNodes`, `Views`, `Links`, `Profiles`). The heap tree with parent
  pointers, its pruning into a fresh tree, and the moderators read through a cache.
* **The peer pool** (`PeerPool`). Flag-then-scan exclusion of two peers of one user.
* **The database** (`Databases`, `Entities`, `Depths`, `Lists`). Tables that only grow, and what storing keeps.

## Assumptions

* An identifier is a hash of what it names. Hashing is modelled as a free constructor, so identifiers of
  different kinds differ, none is the zero identifier, a user's identifier determines the public key, and a
  message's identifier contains its parent's. `Threads` needs none of this to read a thread from a root.
* A signature is identified with the key it verifies under. `authentic` on a packet stands for a payload
  that decodes and a header that verifies.
* A connection is two lossless queues. A timeout, a closed connection and the pool's refusal are the step
  `Stop` of the two-peer machine. Other peers of a node appear there as `OtherWriter`, which may extend the
  database to any sound one between two steps; every run of `Commits` is such a writer
  (`Announcements.CommitsAreWriters`).
* The owner's subscriptions and moderators do not change while a session lasts.
* Entities handed to an idle peer or fetched by a sync are stored, and operations among them are linked:
  storage notifies after a successful insertion only, and a fetch with an operation that is not linked fails.
* A peer is in the pool's list before it validates itself. `PeerPool.ScanBeforeAppendBreaksExclusion` shows
  that this is needed.
* Queries without an order, and rows with equal dates, come in the order of insertion.

## Where the code differs from its description

* A buffer is stored in the order of arrival, an operation before the message it removes. Storing an
  operation whose object is not stored yet fails and halts the program, and so does storing a thread root
  that was stored meanwhile, because its tags are already there. `ReceivingRuns.CommitSucceedsExactly`,
  `HonestExchange.HonestCommitSucceedsExactly` and `Protocol.ExchangeHaltsExactly` give the exact conditions.
* Two buffers with the same new root may both pass their check before either is stored, and the second
  insertion of the root then halts the program: `Commits.SameRootTwiceHalts`. `Commits.InsertHaltsExactly` says when an
  insertion halts.
* While a commit is under way a reply may be stored without its parent, and a peer that filters this reply
  then halts: `Commits.FirstInsertionDangles`. `Commits.FilterHaltsDuringCommitExactly` says when, for every run.
* A message that is announced in such a moment may be asked for an author or parent that is not stored yet;
  the request fails and the connection is given up: `Announcements.AnnouncingDuringCommitIsRefused`, and two
  nodes that do it in `Examples.RefusalHappens`.
* The buffer of the receiver holds 2052 entities. If everything an announced entity depends on is stored at
  the sender but is more than that, a new receiver accuses: the honest author is banned, and,
  depending on the clock, the honest sender. `Announcements.NewReceiverAccusesExactly` says that this happens exactly then, and
  `LongThreads.LongThreadIsAccused` is a thread for which it does. A thread within the depth limit fits
  (`HonestExchange.ClosureSize`), but receiving does not check the depth.
* So an entity is never refused exactly if everything it depends on was stored when it was announced, and fits
  into the buffer: `Announcements.NeverRefusedExactly`.
* A ban of a user who is not stored leaves a row that cannot be read: `ReceivingRuns.BanIsReadableExactly`. A
  message dated before its unknown author registered makes a receiver store such a row
  (`ReceivingRuns.BackdatedAuthorIsBannedUnstored`), and while it is in the window, no sync gets to its Done
  packet: `ActiveSync.BackdatedMessageStopsSyncs`. Done is sent exactly if every row of both windows can be
  scanned: `ActiveSync.DoneIfAllScannableExactly`.
* A full buffer is meant to ban the author and the sender. `ReceivingRuns.SenderIsBannedExactly` says for all
  clock readings when the sender is; with less than a minute between the two bans it is not.
* The depth limit is checked for the owner's replies but not for received ones: `Depths`. A received root's
  topic is not checked either, so a stored thread may be unreadable: `Databases.GetRootExactly`.
* Reading subscriptions accepts one topic more than the limit and returns the nil list beyond that:
  `Subscriptions.RoundTrip`. A subscription to the nil topic makes the node's Hello packet invalid:
  `Profiles.HelloIsValidExactly`.
* The list of combinations may offer one set of tags in several orders: `Subscriptions.OrdersAreRepeated`. The
  theorems count sets of tags.
* A peer that is closed inside a sync may be remembered as synced, and what the sync had left is then never
  offered: `Histories.ClosedSyncForgetsExactly`, and a run that does this in `Histories.SyncIsInterrupted`.
* Two peers of one user that validate themselves at the same time may both be rejected, each handing its
  addresses to the other: `PeerPool.BothRivalsCanBeRejected`. `PeerPool.UnrivalledPasses` and `RivalIsMet` say who passes.
* An empty fetch result is fetched again at every step of a sync, so with other writers a message may be sent
  after an operation: `ActiveSync.LateMessageFollowsOperation`. `ActiveSync.MessagesFirstExactly` says when not.

## Model

| member | source | states |
|---|---|---|
| Turns.AllRunsAreOrderly | p2p/peer/peer.go:133-151 | Main theorem. Over EVERY run of two peers from the handshake on, whatever they announce and whatever sound databases other writers leave, until one of them stops or gives up: at most two packets are queued in a direction, the peers never wait for each other, during a sync at most one side sends, and the first packet of each queue is one that its reader's state accepts: a valid user, a valid Hello, Announce or Done, Announce, an answer to what was announced, the requested entity. |
| Turns.GivesUpExactly | p2p/peer/state_sending.go:69-91 | In every run, a step of a peer that is neither stopped nor given up makes it give up if and only if it reads a request that it cannot answer, or an answer for which it accuses the sender. |
| Turns.FailsExactly | p2p/peer/state_receiving.go:84-132 | Of the packets a state accepts, these two kinds are the only ones it fails on. |
| Turns.StepKeepsTurn | p2p/peer/state_idle.go:40-70 | Every step of either peer keeps the positions of states and packets that the order follows from, including those after a peer has given up. |
| Protocol.RunsAreSafe | p2p/peer/state_sending.go:40-93 | Main theorem. If moreover everything an announced entity depends on is stored at that moment and fits into the receiver's buffer, no packet is refused and no sender accused in any run, and until a peer stops both databases are sound and a syncing sender hears only requests and acknowledgements. |
| Protocol.RunsOverGoodDatabasesAreSafe | p2p/peer/state_receiving.go:84-94 | If other writers leave good databases, in which nothing is missing or unreadable, only the size of what is announced matters: every run is safe and both databases stay good. |
| Protocol.GoodRuns | storage/storage.go:202-220 | With such writers everything announceable is whole, whatever the depth of the threads, and goodness is kept by every run. |
| Protocol.RunKeepsInv | p2p/peer/peer.go:133-151 | The invariant behind it is kept by every run of the machine. |
| Protocol.ActKeepsInv | p2p/peer/peer.go:133-151 | Every single step of either peer keeps the invariant. |
| Protocol.ReadHandshake | p2p/peer/state_handshaking.go:43-73 | Reading in the handshake leads to the next position of the handshake, to the start of the client's sync, or to a stop. |
| Protocol.FinalizeKeepsGood | p2p/peer/state_handshaking.go:176-198 | Storing the new user at the end of the handshake keeps the database sound, and good if it was good. |
| Protocol.AnnounceStep | p2p/peer/state_sending.go:42-52 | An entity is announced only if the receiver's subscriptions cover it; otherwise nothing is sent. For a whole entity the filter never halts. |
| Protocol.AnnounceIntoCollision | p2p/peer/state_idle.go:56-62 | Announcing while the other's announcement is on its way leads into a collision position, never to a third packet. |
| Protocol.ReadCollision | p2p/peer/state_sending.go:72-75 | A colliding sender reads the other's announcement, or the acknowledgement before it, writes nothing and is idle again. |
| Protocol.ReadDone | p2p/peer/state_passive_syncing.go:50-59 | The one packet a peer reads between exchanges of a sync is Done; the client is then idle and the server starts its own sync. |
| Protocol.SenderStep | p2p/peer/state_sending.go:69-91 | A sender that reads a request answers it, and one that reads the acknowledgement returns; neither can be a violation. |
| Protocol.AnnouncementStep | p2p/peer/state_receiving.go:61-83 | A receiver either acknowledges a known entity at once or asks for it, and changes nothing else. |
| Protocol.AnswerStep | p2p/peer/state_receiving.go:70-132 | On an honest answer the receiver asks for a further member of the closure, acknowledges with a database that is still sound, and good if it was good, or halts; it never refuses. |
| Protocol.HeadIsAccepted | p2p/peer/state_receiving.go:289-323 | Whatever packet is first in a queue, its reader does not take it for a violation. |
| Protocol.InvIsSafe | p2p/peer/state_idle.go:40-70 | The invariant bounds the queues, excludes mutual waiting and two senders during a sync, and lets a syncing sender hear nothing but requests and acknowledgements. |
| Protocol.HandshakeCompletes | p2p/peer/state_handshaking.go:43-73 | Two connected peers that have not banned each other always can complete the handshake, after which each has stored the other's user and knows its subscriptions, and the client syncs first. |
| Protocol.NewNodeIsHonest | p2p/peer/state_handshaking.go:43-73 | A newly registered node with valid subscriptions meets the main theorem's assumptions. |
| Protocol.ExchangeHaltsExactly | p2p/peer/state_receiving.go:87-93 | An honest exchange halts the receiver if and only if the buffer is to be stored and either the operation's object was not stored before or a thread root in it has been stored meanwhile. |
| PeerStates.ServingIsDriving | p2p/peer/state_sending.go:58-92 | The serving loop is the two-peer machine's reading steps in a row: same packets, same rest, same final state. |
| PeerStates.FetchingIsDriving | p2p/peer/state_receiving.go:70-132 | The request loop is the machine's reading steps in a row, for any remote peer and any inbox. |
| PeerStates.ReceivingIsDriving | p2p/peer/state_receiving.go:58-132 | A whole receiving state, from the packet that started it, is the machine's steps. |
| PeerStates.ConversationIsDriving | p2p/peer/state_handshaking.go:51-61 | The straight-line handshake of either side is the machine's steps, whatever is received. |
| PeerStates.ConversationCompletesExactly | p2p/peer/state_handshaking.go:85-174 | Whatever the other side sends: the handshake completes if and only if that is a valid user whom no moderator's stored ban names, and then a valid Hello of this version; the user is then stored. A ban or another version closes the connection, anything else is a violation. |
| PeerStates.StateHandshaking.ReadAndProcessUser | p2p/peer/state_handshaking.go:85-126 | Which packets are refused, which users are turned away, and that otherwise the received user is remembered. |
| PeerStates.StateHandshaking.ReadAndProcessHello | p2p/peer/state_handshaking.go:139-174 | Which Hello packets are refused or unsupported, and that otherwise the subscriptions are remembered. |
| PeerStates.StateHandshaking.Finalize | p2p/peer/state_handshaking.go:176-198 | The new user is stored once, the peer gets user and subscriptions, and unless the pool refuses it the history found for it. |
| PeerStates.StateHandshaking.Converse | p2p/peer/state_handshaking.go:51-61 | What either side sends and leaves unread, in order, for any inbox. |
| PeerStates.StateHandshaking.Perform | p2p/peer/state_handshaking.go:43-73 | The handshake equals the machine's steps; unless it completes nothing of the peer changes but its state, and a peer that stays gets its history. |
| Receiving.StateReceiving.Perform | p2p/peer/state_receiving.go:58-133 | The request loop equals the run function: outcome, database, buffer, packets sent and left unread. |
| Receiving.StateReceiving.RequestEntity | p2p/peer/state_receiving.go:74-83 | One round: request, read, check the packet, append, re-check, act. |
| Receiving.StateReceiving.HandleVerdict | p2p/peer/state_receiving.go:84-131 | The branch on the verdict: commit, request, accuse author and sender, accuse, ban and acknowledge, acknowledge. |
| Receiving.StateReceiving.Store | p2p/peer/state_receiving.go:87-93 | The buffer is stored in the order of arrival up to the first failure. |
| Receiving.StateReceiving.BanUser | p2p/peer/state_receiving.go:135-158 | A ban is made unless one was made within a minute; an invalid one halts; a failed insertion is ignored. |
| Receiving.StateReceiving.CheckPendingEntities | p2p/peer/state_receiving.go:325-350 | The scan returns the first verdict that is not a match, and accuses if the first entity is a user. |
| Receiving.StateReceiving.CheckPendingMessage | p2p/peer/state_receiving.go:367-434 | The checks of a message, in order, on the buffer and the storage. |
| Receiving.StateReceiving.CheckPendingOperation | p2p/peer/state_receiving.go:436-486 | The checks of an operation, in order, on the buffer and the storage. |
| Receiving.StateReceiving.GetPendingEntity | p2p/peer/state_receiving.go:172-179 | Finds the first pending entity with the identifier. |
| Receiving.StateReceiving.GetNearPendingMessageID | p2p/peer/state_receiving.go:209-239 | Finds a pending message of the same author less than a minute away, if and only if there is one. |
| Receiving.RoundLeavesRoom | p2p/peer/state_receiving.go:97-110 | A further request is made only while the buffer has room, which is why the loop ends. |
| ReceivingRuns.RequestsAreBounded | p2p/peer/state_receiving.go:42-42 | Against any remote peer one run sends at most MaxPendingEntitiesNum requests. |
| ReceivingRuns.NeededEntityHasAuthor | p2p/peer/state_receiving.go:160-170 | The first pending entity is never a user when its author is asked for, so that halt is unreachable. |
| ReceivingRuns.AckedRunIsAllOrNothing | p2p/peer/state_receiving.go:84-132 | An acknowledged run stored the announced entity with the whole buffer, now closed under authors and parents and with the objects of its operations in the right table, or nothing but at most one ban. |
| ReceivingRuns.MatchedBatchClosed | p2p/peer/state_receiving.go:367-486 | A buffer that matches has every author, every parent and every object in itself or in the database. |
| ReceivingRuns.CommitSucceedsExactly | sqlite/entity_database.go:764-804 | Storing a buffer succeeds if and only if each message brings only new, different tags and each operation's object is stored or arrived earlier. |
| ReceivingRuns.BanIsReadableExactly | sqlite/entity_database.go:985-1024 | A stored ban can be read back if and only if the banned user is stored. |
| ReceivingRuns.BackdatedAuthorIsBannedUnstored | p2p/peer/state_receiving.go:115-127 | A message dated before its unknown author registered: the author is requested, banned without being stored, and the run is acknowledged. |
| ReceivingRuns.CommittedObjectsStored | sqlite/entity_database.go:764-804 | After a successful commit the object of each operation is stored in the table its type asks for. |
| ReceivingRuns.SenderIsBannedExactly | p2p/peer/state_receiving.go:103-110 | When author and sender are both to be banned, for all clock readings, exactly when the sender's ban is stored. |
| ReceivingRuns.FullBufferBansAuthorOnly | p2p/peer/state_receiving.go:103-110 | With less than a minute between the two bans only the author is banned. |
| ReceivingRuns.MatchedMessageIsSpaced | p2p/peer/state_receiving.go:403-418 | An accepted message is a minute, in whole seconds, from every stored and every pending message of its author. |
| ReceivingRuns.ReceiveKeepsRate | sqlite/entity_database.go:622-652 | No run, however it ends, brings two stored messages of one author closer than sixty whole seconds. |
| Sending.StateSending.Perform | p2p/peer/state_sending.go:40-93 | The sending state equals the serving function: skip, halt, packets sent and left unread, and how it ended. |
| Sending.FilterHaltsExactly | p2p/peer/peer.go:180-222 | The filter halts if and only if a peer with subscriptions is to be offered a thread that cannot be read up to its root; a user is never offered. |
| HonestExchange.GoodIsWhole | storage/storage.go:109-131 | In a good database everything a stored entity depends on is stored and readable. |
| HonestExchange.InterestIsSolicited | p2p/peer/peer.go:195-222 | For a whole entity the sender's filter never halts, its answer depends on no database, and what it lets through is what the receiver's "unsolicited" check accepts. |
| HonestExchange.InterestOrHalt | p2p/peer/peer.go:195-222 | Whatever is missing from the thread, the filter gives the same answer as for the whole one, or halts. |
| HonestExchange.MessageInterest | p2p/peer/peer.go:180-193 | The filter's answer is whether the subscriptions cover the topic of the root of the thread; it halts only if the thread is not whole. |
| HonestExchange.ClosureFacts | p2p/peer/state_receiving.go:367-486 | Everything a whole entity depends on is stored at the sender in the table of its kind, is closed under author and parent, and belongs to one thread. |
| HonestExchange.ClosureSize | p2p/peer/state_receiving.go:29-42 | In a thread within the depth limit, what an entity depends on fits into the receiver's buffer. |
| HonestExchange.HonestSenderIsNotAccused | p2p/peer/state_receiving.go:97-131 | Whatever the receiver has stored, and whatever the depth: a buffer filled by an honest sender is accused only if it is full and what the entity depends on is more than the buffer holds, and then for the size alone; otherwise a further request is for a new, available member of the closure. |
| HonestExchange.RequestIsAnswered | p2p/peer/state_sending.go:106-130 | Every request an honest exchange can make is answered with the requested, stored entity, and the buffer stays a set of different members of the closure. |
| HonestExchange.HonestCommitSucceedsExactly | p2p/peer/state_receiving.go:87-93 | With an honest sender, storing succeeds if and only if the operation's object was stored before and no root in the buffer is stored already. |
| HonestExchange.CommitKeepsGood | storage/storage.go:202-220 | A completed commit of an honest sender's buffer keeps the database sound, closed, readable and in step with its tags, and stores every entity. |
| HonestExchange.BanKeepsGood | p2p/peer/state_receiving.go:135-158 | A ban made here keeps the database good and does not halt on a user's identifier. |
| HonestExchange.HonestFetchEnds | p2p/peer/state_receiving.go:70-132 | From any stage of an honest exchange on, the run is acknowledged with a good database or halts under the exact condition. |
| HonestExchange.HonestExchangeEnds | p2p/peer/state_receiving.go:58-133 | The same for the exchange as a whole, with the sender's answers. |
| Acceptance.AcceptedExactly | p2p/peer/state_receiving.go:352-486 | Main theorem. Over any two sound databases, a receiver decides to store what an honest sender announces, with everything it depends on, if and only if every message it lacks has an author who is not banned and was registered when it was written, and is a minute from the author's other messages, stored or to be fetched; and of an operation, if the author is not banned and the object of a ban is known. |
| Acceptance.HonestExchangeStoresExactly | p2p/peer/state_receiving.go:58-133 | The whole run: what is acceptable is stored and linked with all it depends on, except that an operation whose object was not stored before halts; anything else is acknowledged and leaves at most a ban. |
| Acceptance.DialogueFetchesNeeded | p2p/peer/state_receiving.go:391-432 | Of an honest sender only what is missing is fetched: the messages up to the first known ancestor and their unknown authors. |
| Acceptance.ServedExactly | storage/storage.go:169-192 | A stored entity is found by its identifier if and only if it can be read: a message with a valid topic, an operation linked to its object. |
| Acceptance.KnownIsAcknowledgedAtOnce | p2p/peer/state_receiving.go:61-70 | An announced entity is acknowledged without a request, and nothing changes, if and only if this very entity is stored. |
| Acceptance.OnlyAnnouncementsAreAnswered | p2p/peer/state_receiving.go:267-287 | Anything but an authentic announcement ends the run with nothing sent; an announcement is always answered. |
| Acceptance.WrongAnswerEndsTheRun | p2p/peer/state_receiving.go:289-323 | An answer that is not authentic or not what was requested ends the run; nothing is stored and nobody banned. |
| Acceptance.ReceivedOperationIsAcceptedExactly | p2p/peer/state_receiving.go:436-486 | An authentic operation of a known author is accepted if and only if no moderator banned the author and the object is in one of the three tables; a ban of an unknown object is dropped, a removal of an unknown message asks for it. |
| Acceptance.ReceivedOperationIsStoredExactly | p2p/peer/state_receiving.go:86-94 | The run that receives it: stored and linked to its object and acknowledged, or a halt if the object is in the wrong table, or acknowledged with nothing stored. |
| Acceptance.ReceivedBanBansExactly | owner/view.go:38-61 | A received ban by a moderator bans its stored target and nobody else. |
| Acceptance.BanBansExactly | p2p/peer/state_receiving.go:135-158 | A due ban made here, by an owner who is among the moderators, bans its stored target and nobody else. |
| Acceptance.NextRequestExactly | p2p/peer/state_receiving.go:379-432 | After the announced entity its author is asked for, unless banned or known, and of a reply with nothing against it the parent, if and only if that is unknown. |
| Acceptance.AuthorIsBannedExactly | p2p/peer/state_receiving.go:403-425 | The author of an announced message is banned for it if and only if it is dated before the author registered or within sixty seconds of another stored one, unless the author is banned already. |
| Acceptance.AnnouncedIsAccusedExactly | p2p/peer/state_receiving.go:325-486 | An announced entity makes the receiver accuse the sender if and only if it is a user, or malformed, or, of an author who is not banned, not signed by the author or a root that was not subscribed to. |
| Acceptance.BadAnswerIsAccused | p2p/peer/state_receiving.go:325-350 | So does a later answer that is malformed or forged, when everything before it is in order. |
| Acceptance.AccusedRunBansSender | p2p/peer/state_receiving.go:112-114 | The run that ends so sends no acknowledgement and stores nothing but the ban of the sender. |
| Commits.QuietNodeIsClosed | p2p/peer/state_receiving.go:84-94 | After any interleaving of any number of receiving peers, once no commit is under way, every author and parent is stored and each thread can be followed to its root unless the root's topic is invalid. |
| Commits.RunKeepsInv | p2p/peer/state_receiving.go:84-94 | The database together with all unfinished commits stays closed over every run. |
| Commits.MatchedBatchAuthentic | p2p/peer/state_receiving.go:379-402 | Entities that match are valid and signed by the author they name. |
| Commits.InsertKeepsInv | sqlite/entity_database.go:764-804 | Each single insertion keeps it, in whatever order the peers' insertions come. |
| Commits.CommitIsPutAll | p2p/peer/state_receiving.go:86-94 | Uninterrupted, the single insertions of a commit are the storing of its buffer: same database, and a halt if and only if storing fails. |
| Commits.InsertHaltsExactly | sqlite/entity_database.go:666-696 | At any moment of any interleaving, an insertion halts the node if and only if it is of a message with tags that is stored already or repeats a tag, or of an operation whose object is not stored. |
| Commits.SameRootTwiceHalts | p2p/peer/state_receiving.go:84-94 | A run: two peers who receive the same new thread at the same time halt the node. |
| Commits.ThreadReadableExactly | storage/storage.go:109-131 | At any moment of any interleaving, a thread can be read from a message on if and only if none of its messages is still to be inserted and the root's topic is valid. |
| Commits.FilterHaltsDuringCommitExactly | p2p/peer/peer.go:180-193 | After any run, the filter halts on a stored reply if and only if one of its ancestors is still to be inserted or its root's topic is invalid. |
| Commits.FirstInsertionDangles | p2p/peer/state_receiving.go:87-93 | A run: after the first insertion of a buffer that starts with a reply to an unknown message the filter halts. |
| Announcements.CommitsAreWriters | p2p/peer/state_receiving.go:84-94 | Whatever receiving peers do to a database, insertion by insertion, leaves it sound and extends it. |
| Announcements.WholeIsAnswered | p2p/peer/state_sending.go:106-130 | If everything the entity depends on is stored, every request of every receiver that subscribed to the thread is answered, and the exchange is settled if it fits. |
| Announcements.NewReceiverAccusesExactly | p2p/peer/state_receiving.go:97-110 | A receiver that knew nothing of an entity and does not drop it accuses its honest sender if and only if what the entity depends on does not fit into the buffer. |
| Announcements.NewReceiverIsServedExactly | p2p/peer/state_sending.go:106-130 | With a new receiver that does not drop the entity, an exchange in the middle of the sender's commit succeeds if and only if everything the entity depends on is stored and fits. |
| Announcements.NeverRefusedExactly | storage/storage.go:202-220 | An entity that some new receiver would not drop is refused by no receiver if and only if everything it depends on was stored when it was announced and fits into the buffer. |
| Announcements.DialogueIsARun | p2p/peer/state_sending.go:58-92 | These exchanges are runs of the two-peer machine: an unanswered request ends the connection, and so does an accusation. |
| Announcements.MissingAuthorIsRefused | p2p/peer/state_sending.go:106-130 | A run: a message announced before its author is stored ends the connection. |
| Announcements.AnnouncingDuringCommitIsRefused | storage/storage.go:202-220 | This happens between the two insertions of a thread root and its author. |
| Examples.RefusalHappens | storage/storage.go:202-220 | Two concrete nodes and a concrete commit for which it happens. |
| LongThreads.FitsExactly | p2p/peer/state_receiving.go:29-42 | In a constructed thread of one author the newest reply fits into the buffer if and only if author and messages are at most 2052. |
| LongThreads.LongThreadIsAccused | p2p/peer/state_receiving.go:97-110 | If it does not, although everything is stored at the sender in a sound and closed database, every new receiver bans the author, who did nothing wrong. |
| LongThreads.LongThreadEndsConnection | p2p/peer/state_receiving.go:97-110 | A run of the two-peer machine in which this ends the connection. |
| Databases.GetRootExactly | storage/storage.go:109-131 | In any sound database the walks to the root succeed if and only if every ancestor is stored and readable, and then find the root's topic and the depth. |
| Databases.ChainStored | storage/storage.go:109-131 | Everything a stored message depends on is stored. |
| Databases.PutAllEffect | storage/storage.go:202-220 | Storing a batch changes no row, adds nothing else, and on success all of it is present. |
| Databases.PutSound | sqlite/entity_database.go:764-804 | Storing an authentic entity keeps every row valid and signed by its author. |
| Databases.PutTagsExact | sqlite/entity_database.go:666-696 | Storing tags succeeds if and only if they are different and new for the message. |
| Databases.Storage.Store | storage/storage.go:202-220 | The insertion of each kind of entity: row first, then tags or link, and when it fails. |
| Databases.Storage.PutMessageTopic | sqlite/entity_database.go:682-696 | Tags are stored one by one up to the first that is already there. |
| Databases.Storage.Root | storage/storage.go:109-118 | The loop over parents returns the root or the first error. |
| Databases.Storage.MessageDepth | storage/storage.go:120-131 | The loop over parents counts them or returns the first error. |
| Entities.ChainSize | p2p/peer/state_receiving.go:29-42 | A message of depth d depends on at most d + 1 messages and d + 1 users. |
| Depths.OwnReplyIsAllowedExactly | dscuss.go:251-267 | The owner may reply exactly where the thread is readable and the reply respects the depth limit. |
| Depths.ReceivedReplyIsAcceptedExactly | p2p/peer/state_receiving.go:367-434 | A received reply to a known message by a known author is accepted exactly by ban, date and rate: its depth is not checked. |
| Depths.TooDeepReplyIsStored | p2p/peer/state_receiving.go:367-434 | A constructed thread of one author who replies once a minute: the reply beyond the limit is accepted and stored, so "no stored message is too deep" fails. |
| ActiveSync.ScanRows | sqlite/entity_database.go:350-366 | One row that cannot be scanned makes the whole fetch fail. |
| ActiveSync.StateActiveSyncing.Perform | p2p/peer/state_active_syncing.go:48-75 | One call equals one step on the two lists: refill or fail, send the first message, else the first operation, else write Done; nothing else is written. |
| ActiveSync.StateActiveSyncing.MessagesSynced | p2p/peer/state_active_syncing.go:92-103 | The list is fetched while it is nil, a failed fetch is passed on, and the list is synced when it is nil or empty. |
| ActiveSync.StateActiveSyncing.OperationsSynced | p2p/peer/state_active_syncing.go:116-127 | The same for operations. |
| SyncRuns.CallLeadsTo | p2p/peer/state_active_syncing.go:48-75 | What the result of a call does on the machine: Done passes the turn, a wanted entity is announced, any other is skipped. |
| SyncRuns.SyncIsAcknowledgedExactly | p2p/peer/state_active_syncing.go:92-138 | Over EVERY run of the two peers, whatever is announced, stored or given up meanwhile, what the other side acknowledges of a sync is a beginning of the wanted entities handed over, each once and in order, and all of them when Done has been sent. |
| Deliveries.AcknowledgedIsStoredOrDropped | p2p/peer/state_receiving.go:61-133 | In every run, an entity whose acknowledgement was read is this very entity in the other side's database, then and for good, unless the other side decided to drop it. |
| Deliveries.SyncedIsStoredOrDropped | p2p/peer/state_active_syncing.go:92-138 | When a sync has sent Done, every wanted entity it handed over is stored at the other side, unless it was dropped there. |
| ActiveSync.RunIsBounded | p2p/peer/state_active_syncing.go:92-127 | Each sending uses up one place of a measure, whatever the queries return meanwhile. |
| ActiveSync.SyncEnds | p2p/peer/state_active_syncing.go:48-75 | After at most 1000 + 1000 sendings Done is sent or a fetch has failed, even if other peers keep storing. |
| ActiveSync.FailsWithTheFetch | p2p/peer/state_active_syncing.go:92-127 | A sync fails for a fetch of that very call, made because the list was nil. |
| ActiveSync.DoneIfAllScannableExactly | sqlite/entity_database.go:1026-1054 | Over unchanged tables Done is sent if and only if every row of both windows can be scanned. |
| ActiveSync.BanOfUnknownUserStopsSyncs | sqlite/entity_database.go:895-906 | The row that a ban of an unknown user leaves is one that cannot be scanned, so no sync whose window holds it gets to Done. |
| ActiveSync.BackdatedMessageStopsSyncs | sqlite/entity_database.go:1026-1054 | A receiving run that leaves such a row: after it, no sync whose window holds the ban gets to Done. |
| ActiveSync.EverythingFetchedIsSent | p2p/peer/state_active_syncing.go:105-138 | A sync that sent Done handed over exactly one fetched list of messages and one of operations, each row once and in order, or nothing of a kind. |
| ActiveSync.NothingIsLeft | p2p/peer/state_active_syncing.go:92-127 | When Done is sent, neither list has anything left. |
| ActiveSync.MessagesFirstExactly | p2p/peer/state_active_syncing.go:52-65 | A finished sync sends no message after an operation if and only if it found messages at its first call or none up to its last. |
| ActiveSync.LateMessageFollowsOperation | p2p/peer/state_active_syncing.go:92-103 | A concrete sync that sends a message after an operation. |
| ActiveSync.StableSyncSendsBoth | p2p/peer/state_active_syncing.go:48-75 | Over unchanged tables the messages are sent and then the operations. |
| ActiveSync.ResyncRefinesFullWindow | p2p/peer/state_active_syncing.go:77-90 | Below the limit, the shortened window of a known peer announces exactly what filtering the whole month before it left would announce, in the same order. |
| ActiveSync.ResyncMissesNothing | p2p/peer/peer.go:195-222 | Of everything stored since a month before the peer left, below the limit, each message it subscribes to is announced, unless it was stored before the peer left in a thread it already covered. |
| ActiveSync.FirstSyncOffersExactly | p2p/peer/state_active_syncing.go:77-90 | A peer without a history is offered, below the limit, exactly what its subscriptions ask for of what was stored in the last thirty days. |
| ActiveSync.ResyncOffersOperations | p2p/peer/peer.go:195-222 | A returning peer is offered a ban if and only if it was stored since it left, or in the thirty days before while it has subscribed to something new; a removal in a covered thread is not missed. |
| ActiveSync.OnlyAskedForIsOffered | p2p/peer/peer.go:195-222 | Nothing is offered, at any time and of any history, that the subscriptions do not ask for. |
| ActiveSync.LimitKeepsOldestMessages | sqlite/entity_database.go:513-541 | At the limit the messages written first are fetched, in the order of their dates, and as many as it allows. |
| Histories.SavedBeforeSynced | p2p/peer/peer.go:108-123 | In which states a history is saved although the sync is not over. |
| Histories.SyncIsInterrupted | p2p/peer/peer.go:108-123 | A run to such a state: the handshake, and the announcement of an entity the other side wants. |
| Examples.InterruptionHappens | p2p/peer/peer.go:108-123 | Two concrete nodes for which it happens: the root announced last is not wanted again after the history is saved. |
| Histories.ClosedSyncForgetsExactly | p2p/peer/peer.go:108-123 | A returning peer is offered an older entity if and only if no history was saved and the earlier sync would have offered it. |
| Histories.ForgottenIsNotAnnounced | p2p/peer/state_active_syncing.go:77-90 | What an interrupted but saved sync had left is not announced by a later one. |
| Subscriptions.Diff | subs/subscriptions.go:67-75 | The loop computes the difference. |
| Subscriptions.DiffMembers | subs/subscriptions.go:67-75 | The difference holds copies of exactly the topics that are not covered. |
| Subscriptions.DiffCoversNoMore | subs/subscriptions.go:58-75 | The difference covers nothing its list does not cover. |
| Subscriptions.DiffSplits | subs/subscriptions.go:58-75 | What the new list covers, the old one or the difference covers. |
| Subscriptions.DiffIsNil | subs/subscriptions.go:67-75 | The difference is nil if and only if every topic is covered. |
| Subscriptions.DiffSplitsExactly | subs/subscriptions.go:67-75 | For all lists, valid or not: the splitting holds for every topic if and only if every topic that is not covered has all the tags of one that is kept. |
| Subscriptions.ToCombinations | subs/subscriptions.go:77-83 | The loop computes the combinations. |
| Subscriptions.AddCombinationsOf | subs/subscriptions.go:85-97 | The recursion with in-place removal computes the combinations of one topic, and ends. |
| Subscriptions.CombinationsAreSubsets | docs/dht_bootstrapping.mkd:40 | The advertised tag sets are exactly the non-empty subsets of the subscribed topics' tags. |
| Subscriptions.CombinationsAreDistinct | subs/subscriptions.go:85-97 | No two advertised topics are equal as strings. |
| Subscriptions.OrdersAreRepeated | subs/topic.go:108-118 | A topic of four tags whose combinations contain two tags in both orders. |
| Subscriptions.RemovalsAreListed | subs/subscriptions.go:85-97 | Whatever a row of removals leads to is listed, in the order they leave the tags in. |
| Subscriptions.CombinationsCount | docs/dht_bootstrapping.mkd:40 | One topic of n different tags gives 2^n - 1 tag sets. |
| Subscriptions.CoveringIsAdvertising | subs/subscriptions.go:58-83 | A topic is covered if and only if the list has the nil topic or one whose tags are among the combinations advertised for the covered topic. |
| Subscriptions.CoversByTags | subs/topic.go:58-65 | One topic covers another if and only if the other has all its tags; a topic without tags covers everything, and no other does. |
| Subscriptions.CoveringIsMonotone | subs/subscriptions.go:58-65 | More tags on a message keep it covered, and more tags on a subscription cover no more. |
| Subscriptions.Read | subs/subscriptions.go:135-167 | The scanning loop equals the parser function on the lines of the text. |
| Subscriptions.ReadKeepsValidLines | subs/subscriptions.go:135-167 | Reading any text keeps exactly the topics of the lines that parse, whatever malformed or repeated lines come between, or nothing when they are more than 33. |
| Subscriptions.FirstValidMembers | subs/subscriptions.go:135-167 | These topics are valid and different, and exactly those of some line. |
| Subscriptions.FirstValidInOrder | subs/subscriptions.go:135-167 | And they are in the order of the lines they first occur on. |
| Subscriptions.RoundTrip | subs/subscriptions.go:114-167 | Reading a printed valid list without repetition gives it back if and only if it has at most 33 topics. |
| Strings.SplitJoin | subs/topic.go:36-52 | Splitting undoes joining for separator-free parts. |
| Strings.JoinSplit | subs/topic.go:36-52 | Joining undoes splitting for every string. |
| Strings.LinesTerminated | subs/subscriptions.go:135-167 | The scanner returns exactly the lines that were written. |
| Strings.LinesOfAnyFile | subs/subscriptions.go:135-167 | Lines ended by a carriage return and a newline read the same, and a last line without an end is read too. |
| Topics.CheckValid | subs/topic.go:81-100 | The scan with the set of seen tags decides validity. |
| Topics.TopicRoundTrip | subs/topic.go:36-52 | Parsing a valid topic's string gives the topic. |
| Topics.TopicParseRoundTrip | subs/topic.go:36-52 | What parses is valid and prints as it was. |
| Topics.TopicFormat | subs/topic.go:36-52 | Two different valid tags with a comma between them are a topic; a repeated or an empty tag is refused. |
| Topics.StringDeterminesTags | subs/topic.go:54-56 | Equal strings mean equal tags, for valid tags. |
| Topics.Remove | subs/topic.go:108-118 | Removal swaps the tag with the last one in a copy, or reports that it is missing. |
| Topics.RemovedIsOneLess | subs/topic.go:108-118 | Removal loses one occurrence of the tag and nothing else. |
| Threads.ThreadHoldsEachReplyOnce | sqlite/entity_database.go:568-601 | The thread holds exactly the message and its transitive replies, each once, in any table read from a root. |
| Threads.ThreadIsArranged | sqlite/entity_database.go:543-584 | Below each message of a thread are answers to it, ordered by date, at every level. |
| Threads.StepDown | sqlite/entity_database.go:568-584 | Each level of the recursion visits a new row, so it ends without assuming that parents are acyclic. |
| Threads.PathIsUnique | sqlite/entity_database.go:543-566 | There is one path from a thread's root to a message. |
| Threads.PathLengthIsDepth | storage/storage.go:120-131 | The place of a message in its thread is the depth the storage computes. |
| Threads.ModerationFusesWithBuilding | thread/moderating_visitor.go:37-60 | Moderating a thread gives the thread of the visible rows, in the same order. |
| Threads.ModeratedThreadHolds | owner/view.go:137-141 | A message appears in the moderated thread if and only if it and all its ancestors up to the root are visible, and then once. |
| Threads.ModeratedThreadIsArranged | thread/moderating_visitor.go:37-60 | What moderation leaves of a thread is arranged in the same way. |
| Threads.PruneTwice | thread/moderating_visitor.go:37-60 | Moderating an already moderated thread more strictly is moderating the original. |
| Threads.ModerationIsAntitone | owner/view.go:73-104 | More operations and more moderators only prune. |
| ThreadNodes.FillSubthreads | sqlite/entity_database.go:568-584 | The recursion builds, below the node, fresh nodes with consistent parent pointers that represent the specified tree. |
| ThreadNodes.GetThread | sqlite/entity_database.go:586-601 | The thread of a readable message is a fresh detached tree representing the specified one; otherwise the error is passed on. |
| ThreadNodes.Node.AddReply | thread/node.go:34-39 | A new last child, with its parent pointer. |
| ThreadNodes.Node.AddChild | thread/node.go:41-44 | The subtree becomes the last child, and both trees stay valid. |
| ThreadNodes.Node.Depth | thread/node.go:46-52 | The loop over parent pointers counts the nodes above. |
| ThreadNodes.NodeDepthIsMessageDepth | thread/node.go:46-52 | The depth of a node of a thread read from its root is the depth of its message in the storage. |
| ThreadNodes.Visit | thread/moderating_visitor.go:37-60 | The visitor returns a fresh detached tree for what is visible, or nil, and leaves the original as it was. |
| ThreadNodes.ModeratedThread | owner/view.go:137-141 | Reading and moderating a thread gives the thread of the visible messages. |
| Views.View.UserBanned | owner/view.go:38-61 | Whether a moderator's ban of the user is stored, read through the moderator cache. |
| Views.View.ModerateMessage | owner/view.go:73-104 | A message is kept exactly if its author is not banned and it is not removed. |
| Views.View.ModerateMessages | owner/view.go:106-118 | The visible messages of a board, in their order. |
| Views.PutKeepsLinksTyped | sqlite/entity_database.go:732-762 | Storing only links bans to the users and removals to the messages they name, so the view's halt is unreachable. |
| Views.HiddenByRowsExactly | owner/view.go:38-104 | A user is banned, and a message removed, if and only if a moderator's stored and linked operation of that type names it. |
| Views.StoringJudgesExactly | sqlite/entity_database.go:732-762 | Storing a moderator's ban of a stored user bans this user and nobody else, storing a removal of a stored message removes this message and no other, and storing anything else changes neither. |
| Views.StoringHidesExactly | owner/view.go:73-104 | So storing an operation hides exactly the messages of the banned user, or the removed message. |
| Links.CommitRunKeepsLinksTyped | sqlite/entity_database.go:732-762 | So it is over every run of any number of receiving peers, insertion by insertion. |
| Links.LinksStayTyped | owner/view.go:38-61 | And over every run of two peers on a connection. |
| Views.VisibleAntitone | owner/view.go:73-104 | What is visible with more operations and moderators is visible with fewer. |
| Profiles.Profile.PutModerator | owner/profile.go:48-56 | The moderator is added, and a repetition is reported; the cache stays in step. |
| Profiles.Profile.RemoveModerator | owner/profile.go:58-66 | The moderator is removed and nothing else; removing the owner is refused; the cache stays in step. |
| Profiles.Profile.GetModerators | owner/profile.go:81-96 | The table and the owner, whether or not they were cached. |
| Profiles.Profile.HasModerator | owner/profile.go:68-79 | Membership in the moderators. |
| Profiles.Profile.PutSubscription | owner/profile.go:98-103 | The subscription is added, and a repetition is reported. |
| Profiles.Profile.RemoveSubscription | owner/profile.go:105-110 | The subscription is removed and nothing else. |
| Profiles.Profile.GetSubscriptions | owner/profile.go:112-124 | A copy of what the table's rows parse to, whether or not it was cached. |
| Profiles.DeletedRemoves | sqlite/profile_database.go:103-124 | Deleting by key removes that row only. |
| Profiles.ParsedIsValid | owner/profile.go:112-124 | Subscriptions read from the table are valid and print as rows of it. |
| Profiles.ParsedExactly | owner/profile.go:112-124 | The subscription table is read if and only if every row parses, and then to the topics of its rows. |
| Profiles.SubscriptionsAreTheTable | owner/profile.go:112-124 | The owner's subscriptions, and the copy handed out, printed row by row, are the table. |
| Profiles.HelloIsValidExactly | p2p/peer/state_handshaking.go:128-137 | The subscriptions a node introduces itself with are all valid if and only if none of them is the nil topic. |
| Profiles.HelloOfTableExactly | subs/subscriptions.go:99-112 | A node's subscription table makes a valid Hello if and only if it has one to thirty-two rows, none of them empty. |
| PeerPool.PeerList.Append | p2p/peer_pool.go:39-43 | A peer becomes the last of the list. |
| PeerPool.PeerList.Remove | p2p/peer_pool.go:45-59 | Removal swaps the first occurrence with the last place. |
| PeerPool.SwapRemovedIsOneLess | p2p/peer_pool.go:45-59 | It loses one occurrence of the peer and nothing else. |
| PeerPool.NoTwoPeersOfOneUser | p2p/peer_pool.go:193-210 | Under any interleaving of setting the user and scanning, no two peers of one user in the pool both pass. |
| PeerPool.RejectedOnlyForRival | p2p/peer_pool.go:193-210 | In no interleaving is a peer rejected unless another one has its user. |
| PeerPool.UnrivalledPasses | p2p/peer_pool.go:193-210 | Whatever the others do meanwhile, a scanning peer with no rival in its copy moves on with each round and passes with the round after the last place. |
| PeerPool.RivalIsMet | p2p/peer_pool.go:193-210 | One with a rival of known user in the rest of its copy never passes and is rejected at the rival's place at the latest. |
| PeerPool.BothRivalsCanBeRejected | p2p/peer_pool.go:193-210 | A run in order in which two peers of one user meet each other, so that neither stays. |
| PeerPool.ScanBeforeAppendBreaksExclusion | p2p/peer_pool.go:131-142 | Were a peer validated before it is in the list, two of one user could pass: a concrete run. |
| PeerPool.ScanConservesAddresses | p2p/peer_pool.go:193-210 | A scan hands addresses over and loses or invents none. |
| PeerPool.AddressesStayWithUser | p2p/peer_pool.go:193-210 | Over every run, the addresses a peer has come from itself or from peers of the same user. |
| Lists.SortCorrect | sqlite/entity_database.go:543-566 | The ordering of query results is a sorted permutation. |
| Lists.SortIsStable | sqlite/entity_database.go:543-566 | Rows with equal dates keep the order in which they were found. |
| Lists.FilterSort | sqlite/entity_database.go:513-541 | Selecting rows commutes with ordering them. |

## Left out

- Threads with tied dates: rows with equal timestamps keep the order of insertion; SQLite may return them in another order.
- Databases.PutMessage: does not let another reader see a row before its tags: a root and its tags are one step of `Commits`, as no modelled reader looks at tags.
- PeerStates.StateHandshaking.Finalize: the pool's answer and the history found are parameters; `PeerPool` and `Histories` are about them.
- The order in which `GROUP_CONCAT` returns tags, tags that contain commas inside the database, SQL text and the precision of stored timestamps (beyond the whole seconds of the rate check).
- StateIdle.perform: the endless polling loop; one turn of it is a `Read` or `Announce` step of `Protocol`.
- StatePassiveSyncing.perform: its single read is the step `Protocol.ReadInSync`, without an object of its own.
- Protocol.RunsAreSafe: time does not pass in the machine, so deadlines are `Stop` steps; the date of a ban is any date given with the reading step; the pool's refusal after the handshake is `Stop`.
- Receiving.StateReceiving.BanUser: the comment of an operation made here is empty.
- Databases.Storage.Store: does not model the notification of observers, because what they do with it is the `Announce` step, which `Protocol` and `Announcements` allow after any single insertion.
- Announcements.NeverRefusedExactly: speaks of exchanges during which the databases stay as they are; that growth of the sender's database does not hurt is part of `Protocol.RunsAreSafe`.
- The queue of entities for idle peers (capacity 100, entries dropped when full) and delivery guarantees while idle: entities are dropped by design.
- Observers other than their effect of making idle peers announce stored entities.
- TCP, packet framing, JSON, size limits of readers, encryption of keys, proof of work search, ECDSA and SHA-256 themselves.
- The distributed hash table, address providers and the counters of the connection provider: thin wrappers around foreign libraries.
- The user history table: a history is a value given to the peer, with the condition under which it is replaced in `Histories`.
- The command line and web interfaces, configuration and logging.
- Threads beyond the memory or stack of the program: integers and recursion are unbounded here.
