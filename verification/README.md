# whisper-core: a verified model

whisper-core is a C library for encrypted chat between peers on a local network. Nodes
find each other by broadcast, agree on a DES key for each connection by way of an RSA
handshake, and group connections into sessions. This project models those parts in Dafny
and proves what they guarantee, and exactly when, for every input, every interleaving and
every run.

`dafny verify dfyconfig.toml` checks everything.

## The parts

| modules | what they hold |
|---|---|
| `Bytes`, `Cryptography` | C strings; DES in 64-bit cipher feedback mode over an arbitrary block function, with the register that the loop changes in place |
| `ConnectionRequests`, `ConnectionControllers`, `Sessions` | one node: the records, the message queues, the handlers, the session lists. Each class method is proved against a function of the old state |
| `Network` | any number of nodes, the messages between them, and the events of a run |
| `Handshakes`, `HandshakeSteps` | the inductive invariant: a history with one entry for each connection id, and what the entry says about both records, the callbacks and the one handshake message in the system |
| `Protocol`, `Completions`, `Progress` | the results about handshakes: key agreement, no fail-stop, order and number of completions, monotonicity, termination |
| `Delivery`, `Membership`, `Conservation` | the results about chat messages and sessions: end-to-end delivery, session partition, which session holds a connection and who is notified, each message handed up once |
| `Witnesses` | inputs on which the code does something unexpected |
| `Peers`, `PeerStores` | the peer store with its two indexes, over one call and over whole runs |
| `PeerCodec`, `Discovery` | the wire form of a peer, the discovery packets, and the polling loop |

A class holds the fields that the C code changes in place. Beside it stand a value (`View`)
and functions from value to value; the methods are proved equal to the functions, and the
results are lemmas about the functions.

## Assumptions

- Connection ids and session ids are fresh (`jnx_guid_create` never repeats one), and no node
  initiates to itself. A peer store that knows a peer finds it under its guid; an emission or
  a tick that meets a peer it does not know stops the node, and the others go on.
- A message is delivered at most once. It may be lost, and messages may overtake each other
  between nodes. Within a node the mux is an out queue and an in queue, first in first out,
  and it never hands over a null message.
- One tick of a controller, and one call that holds the store lock, is one step.
- The session controller has installed its callbacks. `connection_controller_remove_connection_request`
  is not a step; removing a session, or a connection from a session, is. A removed session may
  still be sent to and extended.
- Asymmetric encryption and Base64 are symbolic: a sealed secret opens with the key pair
  it was sealed for and with no other. The DES block function is an arbitrary function of key
  and block, so the results hold for all of them.
- Memory behind a buffer is an input wherever the code reads it: the byte behind the literal
  "OKAY", the bytes up to the NUL that ends `strlen` on a ciphertext, the byte behind a
  received payload that decryption covers too, and the bytes behind the buffer decrypted into.
  `strcmp` with "OKAY" and the user's callback read the same C string: the decrypted bytes and
  what is behind them, up to the first NUL; the end of the given bytes counts as one.
- A discovery packet lies in a buffer of at least four bytes, which may hold stale bytes behind
  or, in a shorter packet, instead of it.
- The clock is an input. Hash map keys are listed in any order.

## Where the code and its comments or names differ

- `found` is not reset after a match (src/session/session_controller.c:34-50), so the members
  listed after the addressed connection are notified as well. `Delivery.Routing` gives the
  exact list, and that it is right exactly for the last member. `Witnesses.SecondNotified` is a
  run, for every block function and every message, whose last tick notifies the user for two
  connections.
- Ciphertext is measured with `strlen` (src/net/connection_request.c:184, :232). A secret under
  which "OKAY" or a chat message encrypts to a NUL cuts it short. It is then understood if and
  only if the bytes the receiver reads in place of the missing ones happen to be right:
  `ConnectionRequests.OkayArrivesIff` and `DataArrivesIff` say so on the inputs,
  `Completions.CompletionToldOnce` and `Delivery.CarriedText` over runs.
  `Witnesses.CompleteButNotTold` is a run, for every secret under which "OKAY" does not
  survive, after which the initiator's record is complete without its callback.
  `Witnesses.TextArrivesWrong` is a text for every secret whose first key stream byte is not
  NUL that can arrive as another.
- The comment at src/net/discovery.c:193-202 says that services synchronise on the last LIST
  packet. The loop reads the last update time only once, before it starts, so a turn is in
  step with the last update if and only if that came at one of the loop's own update times
  (`Discovery.InStepIff`, `StaysInStepIff`); `Discovery.PollsTooSoon` is a loop that is not.
  The bound on the rate holds nevertheless (`Discovery.PollingRate`).
- `sleep(next_update - time(0))` takes an unsigned argument, so a turn that is late asks for a
  sleep of at least 2^31 seconds (`Discovery.NapExact`).
- src/data/peer.c:42 calls the user name optional; the descriptor table requires it. A peer
  with an empty name does not survive the round trip (`PeerCodec.RoundTripIff`).
- A derived user name `name-xxxx` is not checked against other names. `PeerStores.StoreKeepsIndexIff`
  gives the condition for one call, `PeerStores.IndexesAgreeIff` for a run, and
  `PeerStores.DashBreaksIndex` an example where the indexes come apart.
- The interval of a stored peer is that of the announcement which last put it into the store;
  later ones do not refresh it (src/data/peerstore.c:94-113). The expiry results speak of that interval.

## Model

| member | source | states |
|---|---|---|
| `Cryptography.ParityIsOdd` | src/crypto/cryptography.c:132 | the adjusted key byte differs in its low bit at most and has an odd number of ones |
| `Cryptography.OneKey` | src/crypto/cryptography.c:131-133 | exactly one block agrees with the secret in the upper seven bits of each byte and has an odd number of ones in each |
| `Cryptography.KeyUsed` | src/crypto/cryptography.c:131-134 | and both directions use that block as their key and initial value |
| `Cryptography.XorBits` | src/crypto/cryptography.c:134 | the mask is joined bit by bit: a bit is set where the two differ |
| `Cryptography.EncryptEquation` | src/crypto/cryptography.c:119-136 | byte i of the ciphertext is byte i of the plaintext masked by the block function, under the adjusted key, of the ciphertext block before, or of the key itself in the first block (NIST SP 800-38A, section 6.3) |
| `Cryptography.DecryptEquation` | src/crypto/cryptography.c:137-156 | byte i of the result is byte i of the ciphertext under the same mask |
| `Cryptography.EncryptPrefix` | src/crypto/cryptography.c:119-136 | a ciphertext's first k bytes depend on the first k plaintext bytes only |
| `Cryptography.DecryptPrefix` | src/crypto/cryptography.c:137-156 | decryption is causal: the first k bytes come from the first k ciphertext bytes only |
| `Cryptography.DecryptInvertsEncrypt` | src/crypto/cryptography.c:119-156 | decryption inverts encryption, for every block function, key and length |
| `Cryptography.EncryptInvertsDecrypt` | src/crypto/cryptography.c:119-156 | and the other way round |
| `Cryptography.TruncatedDecrypt` | src/crypto/cryptography.c:137-156 | a receiver that holds n right ciphertext bytes gets n right plaintext bytes, whatever follows |
| `Cryptography.CutCarriesString` | src/crypto/cryptography.c:137-156 | a C string is read from a decrypted cut ciphertext if and only if more bytes than it has were sent, or what the receiver reads behind those sent, the stray byte decrypted and its memory up to a NUL, is the rest of the string |
| `Cryptography.RegisterStep` | src/crypto/cryptography.c:134 | one step of the register: entry n is the key stream byte, and the register stays right when the ciphertext byte is put back |
| `Cryptography.Cfb64` | src/crypto/cryptography.c:128-134 | the loop over the in-place register computes cipher feedback, in either direction |
| `Cryptography.SymmetricalEncrypt` | src/crypto/cryptography.c:119-136 | size + 1 bytes are encrypted, with the parity-adjusted secret as key and initial value |
| `Cryptography.SymmetricalDecrypt` | src/crypto/cryptography.c:137-156 | size + 1 bytes are decrypted, one more than the callers have |
| `ConnectionRequests.ConnectionRequest.constructor` | src/net/connection_request.c:5-30 | a new record has both endpoints, a key pair and no secret |
| `ConnectionRequests.ConnectionRequest.CreateExchangeMessage` | src/net/connection_request.c:81-207 | each answer and its effect on the record, and every way of stopping instead |
| `ConnectionRequests.ExchangeIff` | src/net/connection_request.c:91-187 | when there is an answer to build, that it goes from the record's own node to its peer, and what becomes of the secret |
| `ConnectionRequests.ConnectionRequest.SendMessage` | src/net/connection_request.c:209-236 | a message exactly if there is a secret, cut behind the first NUL of the ciphertext |
| `ConnectionRequests.CutAtNulIs` | src/net/connection_request.c:232 | what is sent ends at the first NUL, that included |
| `ConnectionRequests.DataAllBytes` | src/net/connection_request.c:226-232 | len + 1 bytes are encrypted, and sent as a whole if there is no NUL among them |
| `ConnectionRequests.OkaySixBytes` | src/net/connection_request.c:181-184 | so are six bytes of "OKAY" |
| `ConnectionRequests.OkayArrivesIff` | src/net/connection_request.c:181-184 | the comparison with "OKAY" succeeds if and only if its ciphertext has no NUL, or the receiver reads just what is missing in place of the bytes from the first NUL on; the padding does not matter |
| `ConnectionRequests.DataArrivesIff` | src/net/connection_request.c:226-232 | given with at least its own length, the text read from a chat payload is the text sent if and only if its ciphertext has no NUL, or the receiver reads just what is missing behind the first one |
| `ConnectionRequests.TextArrivesIff` | src/net/connection_request.c:226-232 | the same for every length given with the text; a length below the text's own leaves its end and NUL out, and what the bytes behind the ciphertext decrypt to is read in their place |
| `ConnectionControllers.ConnectionController.constructor` | src/net/connection_controller.c:189-208 | a controller starts with no records and empty queues |
| `ConnectionControllers.ConnectionController.FindConnection` | src/net/connection_controller.c:40-55 | the list search finds the first record with the id |
| `ConnectionControllers.ConnectionController.AddConnectionRequest` | src/net/connection_controller.c:257-262 | the record goes to the end of the list |
| `ConnectionControllers.ConnectionController.InitiationRequest` | src/net/connection_controller.c:232-252 | a record in the first state, and its CREATE_SESSION message queued |
| `ConnectionControllers.ConnectionController.ProcessMessage` | src/net/connection_controller.c:23-176 | the whole new state, callback or stop, for each message in each state; the old state of a record is never looked at |
| `ConnectionControllers.StopsExactly` | src/net/connection_controller.c:36-172 | in any state, a message stops the process if and only if its sender is unknown or the node itself, or it does not fit the record with its id |
| `ConnectionControllers.OthersUntouched` | src/net/connection_controller.c:40-55 | a message changes no other connection's record and takes nothing from a queue |
| `ConnectionControllers.ConnectionController.HandleCreate` | src/net/connection_controller.c:74-84 | the record made for a CREATE_SESSION message and the reply queued |
| `ConnectionControllers.ConnectionController.Answer` | src/net/connection_controller.c:101-103 | the answer built from the record, and queued |
| `ConnectionControllers.ConnectionController.OpenPayload` | src/net/connection_controller.c:143-145 | the decryption of a payload and one byte behind it |
| `ConnectionControllers.ConnectionController.Tick` | src/net/connection_controller.c:218-231 | at most one message is taken and processed |
| `ConnectionControllers.IdleTick` | src/net/connection_controller.c:222-231 | without a message a tick takes nothing, changes nothing and calls nobody |
| `ConnectionControllers.ConnectionController.RequestSendMessage` | src/net/connection_controller.c:177-188 | a message is queued exactly if the record has a secret |
| `Sessions.Session.constructor` | src/session/session.c:11-16 | a new session has no connections |
| `Sessions.Session.AddConnection` | src/session/session.c:17-19 | the connection goes to the end of the list |
| `Sessions.Session.RemoveConnection` | src/session/session.c:28-31 | the first connection with the same id goes, if there is one |
| `Sessions.SessionController.constructor` | src/session/session_controller.c:61-74 | no sessions yet, over the given controller |
| `Sessions.SessionController.AddSession` | src/session/session_controller.c:75-77 | the session goes to the end of the list |
| `Sessions.SessionController.SessionCreate` | src/session/session_controller.c:90-113 | a new session with one newly initiated connection |
| `Sessions.SessionController.NewSession` | src/session/session_controller.c:114-131 | a session holding just the given connection |
| `Sessions.SessionController.SessionAddPeer` | src/session/session_controller.c:132-141 | the session gains one newly initiated connection, listed or not |
| `Sessions.SessionController.RemoveSession` | src/session/session_controller.c:86-89 | the first session with the same id goes, if there is one |
| `Sessions.SessionController.InternalIncoming` | src/session/session_controller.c:13-24 | an incoming connection gets its own session |
| `Sessions.SessionController.InternalMessageReceived` | src/session/session_controller.c:25-54 | the notifications of all sessions, in list order |
| `Sessions.SessionController.NotifySession` | src/session/session_controller.c:33-50 | the `found` flag: every member from the first match on is notified |
| `Sessions.SessionController.Dispatch` | src/session/session_controller.c:55-74 | which handler each callback reaches |
| `Sessions.SessionController.Tick` | src/net/connection_controller.c:218-231 | the node after one tick and the callback it makes |
| `Sessions.NodeIdle` | src/net/connection_controller.c:222-231 | without a message a tick leaves the whole node as it is |
| `Sessions.SessionController.IsSessionReady` | src/session/session_controller.c:142-169 | ready if and only if there is a connection and all are complete |
| `Sessions.ReadyIff` | src/session/session_controller.c:142-169 | ready means not empty, and complete to the end of the list |
| `Sessions.CompletePrefix` | src/session/session_controller.c:186-191 | the longest run of complete connections at the front of a session's list |
| `Sessions.SessionController.SendLoop` | src/session/session_controller.c:182-205 | the loop queues what the members of that prefix contribute, in order |
| `Sessions.SessionController.SessionSendMessage` | src/session/session_controller.c:182-205 | a session send changes the out queue in just that way |
| `Network.ExecSplit` | src/net/connection_controller.c:218-231 | a run is its beginning followed by its rest |
| `HandshakeSteps.HandlerRuns` | src/net/connection_controller.c:67-156 | in an invariant state no handler stops, and each does what the history says comes next |
| `HandshakeSteps.InitiationKeeps` | src/net/connection_controller.c:232-252 | initiating with a fresh id keeps the invariant |
| `HandshakeSteps.EmitKeeps` | src/net/connection_controller.c:6-22 | handing a message to the network keeps the invariant |
| `HandshakeSteps.TickKeeps` | src/net/connection_controller.c:218-231 | a tick keeps the invariant, for each kind of message |
| `HandshakeSteps.StopKeeps` | src/net/connection_controller.c:14-36 | an emission or tick that meets an unknown peer stops its node and keeps the invariant for all |
| `HandshakeSteps.DataHandled` | src/net/connection_controller.c:157-172 | a chat message finds a record with a secret and leaves the controller unchanged |
| `HandshakeSteps.SendKeeps` | src/session/session_controller.c:182-205 | a session send keeps the invariant |
| `HandshakeSteps.StepKeeps` | src/net/connection_controller.c:23-252 | every event of the system keeps the invariant |
| `Protocol.RunKeeps` | src/net/connection_controller.c:23-252 | the invariant holds after every run, and history entries only grow |
| `Protocol.QueueOrder` | src/net/connection_controller.c:218-231 | in every event a node's two queues are first in, first out: an emission or a tick takes the first message, and what is put in goes to the end |
| `Protocol.KeyAgreement` | src/net/connection_controller.c:68-156 | in every reached state two records of one connection mirror each other, never hold different secrets, and hold the same one if both are complete; no third node has a record |
| `Protocol.CompleteHasPeer` | src/net/connection_controller.c:106-156 | a complete record's peer holds the same secret already |
| `Protocol.NoAbort` | src/net/connection_controller.c:36-39 | in every run a node has stopped if and only if one of its own emissions or ticks met a peer its store does not know, and then for that reason: no other check, exit or null dereference of a handler is ever reached |
| `Protocol.StopsIff` | src/net/connection_controller.c:31-39 | a tick in a reached state, with any lookup that finds peers under their guids, stops if and only if there is a message whose sender is not found; else it does what it does when all are known, and nothing without a message |
| `Protocol.InitiatorKnown` | src/net/connection_controller.c:232-252 | the history names the node that started each connection |
| `Protocol.BothEnds` | src/net/connection_request.c:5-30 | both records and both callback counts of a started connection are those of its entry |
| `Protocol.OrderedCompletion` | src/net/connection_controller.c:106-156 | the initiator is complete only if the responder is |
| `Completions.FinishedBy` | src/net/connection_controller.c:136-141 | only the initiator's tick for the completion message finishes a handshake |
| `Completions.DoneStays` | src/net/connection_controller.c:136-156 | nothing later in a run changes a finished handshake |
| `Completions.CompletionDecides` | src/net/connection_controller.c:141-154 | that tick decides on the callback by whether "OKAY" survives under the record's secret |
| `Completions.OneTick` | src/net/connection_controller.c:136-156 | a run has at most one such tick for each connection |
| `Completions.CompletionToldOnce` | src/net/connection_controller.c:126-154 | the responder is told once if and only if its record is complete; the initiator's record is complete if and only if there was a tick for the completion message, and it is told once if "OKAY" survived at that tick and never if not |
| `Completions.CallbacksCountCompletions` | src/net/connection_controller.c:126-154 | callbacks never outnumber complete records at a node, and are equally many if and only if "OKAY" survived at each of its ticks for a completion message |
| `Protocol.RecordsOnlyAdvance` | src/net/connection_controller.c:79-141 | between any two moments of a run a record only advances along its role's states, and a secret once set stays |
| `Protocol.OneHandshakeMessage` | src/net/connection_controller.c:68-134 | each connection has at most one handshake message in all queues and the network together |
| `Progress.ProgressCounts` | src/net/connection_controller.c:6-231 | every emission, delivery and processing takes exactly one from the steps left |
| `Progress.DropCounts` | src/net/connection_controller.c:15-18 | a lost message takes exactly the steps that depended on it |
| `Progress.LostIff` | src/net/connection_controller.c:15-18 | a connection's history says that its message is lost if and only if an event of the run dropped a handshake message of it |
| `Progress.RunsEnd` | src/net/connection_controller.c:218-231 | without new requests and sends the system stops after exactly the steps counted |
| `Progress.CanStep` | src/net/connection_controller.c:218-231 | no deadlock: while steps are left and no node has stopped one of them can be taken, whatever the outside values |
| `Progress.NothingPending` | src/net/connection_controller.c:68-156 | with no step left, an unfinished handshake's message was lost |
| `Progress.QuietMeansComplete` | src/net/connection_controller.c:68-156 | when no message is left, a connection is complete at both ends with one secret if and only if no event dropped a handshake message of that connection |
| `Progress.CountedStepsComplete` | src/net/connection_controller.c:68-156 | after any continuation of the counted length, in whatever order it takes its steps, the same if and only if for the events before it |
| `Progress.EveryRunCanComplete` | src/net/connection_controller.c:68-156 | every run after which no node has stopped has a continuation, for any outside values, that works off all messages and completes exactly the connections none of whose handshake messages was dropped |
| `Delivery.FanOutExact` | src/session/session_controller.c:182-205 | a session send queues exactly one ciphertext for each member of the complete prefix, in order, each under its own secret |
| `Delivery.ReadyReachesAll` | src/session/session_controller.c:142-205 | for a ready session that is every member, and every member's peer holds the secret |
| `Delivery.BatchMessage` | src/session/session_controller.c:185-204 | message j of a send is made from member j's complete record, for that record's peer |
| `Delivery.HeadOpened` | src/net/connection_controller.c:157-172 | a chat message about to be processed is opened with the secret of its connection |
| `Delivery.EndToEnd` | src/net/connection_request.c:209-236 | a message made from a complete record is opened, at any later time, under the same secret at the peer |
| `Delivery.SendDelivered` | src/net/connection_controller.c:157-188 | from a send event to the callback: whatever happens in between, message j reaches the peer's callback for the same connection, opened with the sender's secret |
| `Delivery.CarriedText` | src/net/connection_controller.c:160-169 | the text handed up for message j of a send is the text in the sender's memory if and only if it arrives under the sender's secret with the length given and what both nodes have behind their buffers |
| `Delivery.StepSessions` | src/session/session_controller.c:13-141 | every event keeps session lists disjoint and made of known records |
| `Delivery.SessionPartition` | src/session/session_controller.c:13-141 | in every reached state each connection id is in at most one place of one session, and is a record of its node |
| `Delivery.NoHolderNoNotes` | src/session/session_controller.c:25-54 | a connection that no session holds notifies nobody |
| `Delivery.OnlyHolderNotified` | src/session/session_controller.c:25-54 | if one session holds it, that session alone is notified |
| `Delivery.Routing` | src/session/session_controller.c:25-54 | the notifications of a routed message: its own connection first, then every later member; for its own alone if and only if it is the last |
| `Delivery.SendNotified` | src/session/session_controller.c:25-54 | from a send event to the user: the recipient's notes grow by exactly the notes of the one session holding the connection, from its place on, and by none if no session does |
| `Membership.IncomingListed` | src/session/session_controller.c:13-24 | a tick that takes a CREATE_SESSION message appends exactly one session, holding its connection; no other tick appends any |
| `Membership.SessionGone` | src/session/session_controller.c:86-89 | removing a session takes the one with its id off the list and leaves the others in order |
| `Membership.MemberGone` | src/session/session.c:28-31 | removing a connection takes it, and no other, out of its session |
| `Membership.StepHolds` | src/session/session_controller.c:13-141 | how each event changes what is held: new records are, unless asked for by a session not listed, and only a removal takes one out |
| `Membership.HeldIff` | src/session/session_controller.c:13-141 | in every reached state a session of a node holds a connection if and only if the node has a record of it and no event of the run took it out |
| `Membership.SendReachesUser` | src/session/session_controller.c:25-54 | the user is notified of a message, at the tick that takes it and first for its own connection, if and only if no event of the run took the connection out of its session |
| `Conservation.TickHandsUp` | src/net/connection_controller.c:157-172 | a tick hands up its message if and only if it is a chat message |
| `Conservation.StepConserves` | src/net/connection_controller.c:157-231 | one event: each copy of a chat message under way or made by it is handed up, lost or still under way |
| `Conservation.ChatsConserved` | src/net/connection_controller.c:157-231 | over every run, the copies of a chat message made are those handed up, those lost and those under way |
| `Conservation.EachHandedUpOnce` | src/net/connection_controller.c:157-231 | with no message left, each chat message was handed up exactly as often as it was made if and only if no copy of it was lost |
| `Peers.GuidStrInjective` | src/data/peerstore.c:91-92 | guid strings tell guids apart |
| `PeerStores.PeerStore.constructor` | src/data/peerstore.c:35-49 | an empty store with the given activity test |
| `PeerStores.PeerStore.HandlePeerReconnection` | src/data/peerstore.c:55-70 | the peer that owned the name on the same host goes, its name stays |
| `PeerStores.PeerStore.EnsureUsernameUnique` | src/data/peerstore.c:72-85 | the announced name if and only if it is free; else that name, a dash and four characters of the guid string |
| `PeerStores.UniqueNameIs` | src/data/peerstore.c:72-85 | these properties leave one name only |
| `PeerStores.PeerStore.StorePeer` | src/data/peerstore.c:87-121 | the store after an announcement, through all branches |
| `PeerStores.PeerStore.LookupPeer` | src/data/peerstore.c:143-157 | the answer, which has the guid asked for, and the eviction |
| `PeerStores.LookupExact` | src/net/discovery.c:174-179 | a lookup answers with the peer if it is stored and was last seen no earlier than the last update less twice its interval, and removes it, not its name, if not |
| `PeerStores.AskOnceKeeps` | src/net/discovery.c:170-172 | where peers are asked for once, what is stored is what is found |
| `PeerStores.PeerStore.LookupByUsername` | src/data/peerstore.c:159-181 | the answer, and the removal of a stale name or an inactive peer |
| `PeerStores.NameLookupExact` | src/data/peerstore.c:159-181 | a name whose peer is gone is forgotten, no other; the peer of any other name is answered or removed as by its guid |
| `PeerStores.PeerStore.NoLongerActive` | src/data/peerstore.c:183-192 | name and peer go; false exactly where the code would dereference null |
| `PeerStores.DepartedExact` | src/data/peerstore.c:183-192 | the name and the peer it leads to go, and nothing else; both must be there |
| `PeerStores.PeerStore.GetActiveGuids` | src/data/peerstore.c:194-210 | the array's first entries are the active peers' guids, in key order |
| `PeerStores.PeerStore.SetLastUpdateTime` | src/data/peerstore.c:212-216 | only the update time changes |
| `PeerStores.StoreExact` | src/data/peerstore.c:87-121 | any store leaves the announcer's entry with its guid, host, time and a name the announced one begins; another entry goes if and only if the announced name leads to it and its host is the announced one, and else stays as it is |
| `PeerStores.StoreNames` | src/data/peerstore.c:72-119 | what happens to each name: nothing if the stored name begins with the announced one; else the old one is given up and the new one, the announced name if and only if it was free, is mapped |
| `PeerStores.StoreIdempotent` | src/data/peerstore.c:55-121 | the same announcement at the same time again changes neither map |
| `PeerStores.StoreKeepsIndexIff` | src/data/peerstore.c:72-119 | a store keeps the two indexes together if and only if the derived name is not another peer's current name |
| `PeerStores.LookupsKeepIndex` | src/data/peerstore.c:143-192 | lookups, evictions and departures keep them together |
| `PeerStores.CurrentNames` | src/data/peerstore.c:159-181 | current names are unique, and a lookup by current name is the lookup by guid |
| `PeerStores.IndexesAgreeIff` | src/data/peerstore.c:55-192 | the indexes agree all along a run if and only if no announcement in it takes over another peer's current name |
| `PeerStores.IndexesAgree` | src/data/peerstore.c:55-192 | they always do if announced names have no dash and guids differ in their first four digits |
| `PeerStores.DashBreaksIndex` | src/data/peerstore.c:76-83 | three announcements after which they do not |
| `PeerStores.RemovedIff` | src/data/peerstore.c:55-192 | the only ways a stored peer is removed |
| `PeerStores.KeptEntry` | src/data/peerstore.c:94-113 | a kept entry changes only by its own announcement, and never its interval |
| `PeerStores.EntryHistory` | src/data/peerstore.c:90-118 | after any run an entry was last seen at its latest announcement, and has the interval of the announcement that entered it |
| `PeerStores.LookupIsFresh` | src/net/discovery.c:174-179 | no lookup returns a peer last seen before the last update less twice that interval, for intervals below 2^31 |
| `PeerStores.NeverEvicted` | src/data/peerstore.c:143-157 | a peer announced in time, whose name is not taken over from its host and whose leaving is not announced, stays stored; where peers are asked for once it need not be announced again |
| `PeerStores.ListingIsLookup` | src/data/peerstore.c:194-210 | the listing has, each once, exactly the guids a lookup would find, and the count is their number |
| `PeerCodec.VarintSize` | src/data/peer.pb-c.c:16-21 | the library's size of a 32-bit varint is its length |
| `PeerCodec.ReadVarint` | src/data/peer.pb-c.c:36-45 | a varint is read back whatever follows it (Protocol Buffers encoding, "Base 128 Varints") |
| `PeerCodec.ScanConcat` | src/data/peer.pb-c.c:36-45 | the records of two inputs in a row are the records of the one, then of the other |
| `PeerCodec.PackedSizeExact` | src/data/peer.pb-c.c:16-28 | the size computed before packing is the number of bytes packed |
| `PeerCodec.UnpackPacked` | src/data/peer.pb-c.c:22-45 | a packed message, with any records of unknown fields behind it, unpacks to itself |
| `PeerCodec.LastMessageWins` | src/data/peer.pb-c.c:36-45 | of two packed messages in a row the second one counts |
| `PeerCodec.Peerton` | src/data/peer.c:26-55 | the buffer has the computed size and holds the packed peer |
| `PeerCodec.RoundTripIff` | src/data/peer.c:26-82 | `ntopeer` gives back the four fields that `peerton` took if and only if the user name is not empty |
| `PeerCodec.PeerOnWire` | src/data/peer.pb-c.c:53-103 | the bytes of a packed peer, field by field with their tags (Protocol Buffers encoding, "Message Structure") |
| `PeerCodec.VarintExamples` | src/data/peer.pb-c.c:22-28 | 150 and 300 are encoded as in the specification's examples |
| `PeerCodec.UnpackIff` | src/data/peer.pb-c.c:36-45 | bytes are taken for a peer if and only if they scan, known fields have their wire types, and none of the four is missing |
| `PeerCodec.CutRejected` | src/data/peer.pb-c.c:36-45 | a packed peer that is cut anywhere is rejected |
| `PeerCodec.FixedRecords` | src/data/peer.pb-c.c:36-45 | a record of four or eight fixed bytes is passed over as a whole |
| `Discovery.AnnouncementReachesStore` | src/net/discovery.c:93-96 | the bytes of any node's PEER packet put its guid and host into the receiver's store, seen now, under a name the announced one begins; another entry goes if and only if the name led to it from the same host, and else stays as it is |
| `Discovery.AnswerMovesTimes` | src/net/discovery.c:63-78 | answering a LIST packet sends the local peer, makes both update times now, and changes no entry and no name |
| `Discovery.AnswerExpires` | src/net/discovery.c:174-179 | once a LIST packet has been answered, a lookup finds a stored peer if and only if it was last seen no earlier than that time less twice its interval, for intervals below 2^31 |
| `Discovery.OthersIgnored` | src/net/discovery.c:261-266 | every packet that is neither LIST nor PEER, a STOP packet among them, is ignored |
| `Discovery.CommandsSpelled` | src/net/discovery.c:67-84 | the command words, letter by letter |
| `Discovery.PollIsAnswered` | src/net/discovery.c:249-260 | a LIST packet makes a node announce itself, by its own clock, and a lookup at the asking node then finds it |
| `Discovery.PollingRate` | src/net/discovery.c:190-218 | by any time t at most (t - start) / interval LIST packets have been sent, however early sleeps end |
| `Discovery.DueIff` | src/net/discovery.c:211-214 | turn k sends if and only if it comes no earlier than k + 1 intervals after the start |
| `Discovery.SentExactly` | src/net/discovery.c:207-216 | by any time, exactly as many packets have been sent as there were such turns |
| `Discovery.LastAtIs` | src/net/discovery.c:44-49 | the last update is the latest answer up to then, or the start |
| `Discovery.InStepIff` | src/net/discovery.c:190-218 | a turn's update time is one interval after the service's last update if and only if that update came at the loop's own time, start + k * interval |
| `Discovery.StaysInStepIff` | src/net/discovery.c:190-218 | a loop in step stays so if and only if a packet is answered at its own update time |
| `Discovery.PollsTooSoon` | src/net/discovery.c:193-202 | a loop that sends one second after the service's last update, with an interval of ten |
| `Discovery.NapExact` | src/net/discovery.c:214-215 | the sleep asked for is what is left if and only if the turn is in time; a late one asks for 2^31 seconds or more |
| `Discovery.DiscoveryService.SafelyUpdateLastUpdateTime` | src/net/discovery.c:44-49 | both update times become now |
| `Discovery.DiscoveryService.SendPeerPacket` | src/net/discovery.c:63-78 | the local peer's packet goes out, and the update times move |
| `Discovery.DiscoveryService.SendDiscoveryRequest` | src/net/discovery.c:181-187 | a LIST packet goes out, with its NUL |
| `Discovery.DiscoveryService.HandlePeer` | src/net/discovery.c:93-96 | a decoded peer is stored; false where a null would be |
| `Discovery.DiscoveryService.ReceiveHandler` | src/net/discovery.c:249-268 | what each command does, from a buffer and the length read; unknown ones and STOP do nothing, and false marks a peer that cannot be decoded |
| `Discovery.DiscoveryService.PollingUpdateLoop` | src/net/discovery.c:190-218 | the packets sent, counted up to every time, the sleep asked for at each turn, and the last update time, which the receiving thread moves in the meantime |
| `Witnesses.CompleteButNotTold` | src/net/connection_controller.c:141-154 | for every block function and every secret under which "OKAY" does not survive, a run after which the initiator's record is complete and it was never told |
| `Witnesses.OkayLost` | src/net/connection_request.c:181-184 | under every secret whose first key stream byte is an O, "OKAY" does not survive if a NUL is behind the buffer decrypted into |
| `Witnesses.TextArrivesWrong` | src/net/connection_request.c:226-232 | for every block function and every secret whose first key stream byte x is not NUL, a stray byte with which the text "x" arrives as "xx" |
| `Witnesses.SecondNotified` | src/session/session_controller.c:33-50 | for every block function, outside values and message, a run that brings a message on the first of a session's two connections to its node, whose next tick notifies the user for the second one too |

## Left out

- Progress.EveryRunCanComplete: is for runs after which no node has stopped; messages for a stopped node stay in its queues.
- Delivery.SendDelivered: says that the peer opens the bytes with the sender's secret, not that the text is always the one sent, because ciphertext is cut at its first NUL; Delivery.CarriedText gives the exact condition.
- Sessions.SessionController.Tick: makes the callback after the handler, where the code makes the completion callback just before it builds the answer; the installed callback only logs.
- PeerStores.PeerStore.StorePeer: peers and guid strings are values, so the string freed at src/data/peerstore.c:66 is a stale name and not a dangling pointer; peers handed out by a lookup do not change when they are stored again.
- PeerCodec.Peerton: a null user name is not told apart from an empty one; both are packed as a string of length zero.
- Discovery.DiscoveryService.ReceiveHandler: where a PEER packet of less than four bytes makes the code decode memory beyond its buffer, the model stops.
- Sockets, broadcast addresses and interface lookup: operating-system calls.
- Threads, cancellation and mutexes: each locked call and each tick is one step.
- RSA, PEM, the DES block function, the weak-key check, key and secret generation: symbolic, arbitrary or inputs.
- Base64: a thin wrapper around an encoder that is not part of the repository.
- The message, mux, list, hash and guid libraries (wpprotocol, wpmux, jnx): taken as values, queues, sequences and maps; they are not part of this model.
- The packing library behind src/data/peer.pb-c.c is not part of the repository; packing and unpacking follow the Protocol Buffers encoding for the field types in the table, without group records.
- Allocation and freeing of memory, and reads of freed memory.
- Payloads made by anything but these nodes: the handlers' stops on them are modelled, but no event brings them in.
- `peers_compare` and `handle_stop`: the latter is never called; the removal of a peer that it would make is modelled.
- The broadcast strategy, and starting and stopping the discovery service: they add only easy members.
- Logging and printing.
