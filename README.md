# Activity-streamer server control engine, in Dafny

This project models the control engine of the activity-streaming server
(`ControlSolution`): the single object that every server of the mesh runs. It
handles each message arriving on a peer or client connection. It keeps the set
of authenticated peer connections and the set of logged-in client connections.
It stores the username/secret credentials and the session map. It runs the
username-registration protocol (LOCK_REQUEST, LOCK_ALLOWED, LOCK_DENIED), which
tracks the server ids still to reply for each registration in flight. It
records the least-loaded peer heard of through SERVER_ANNOUNCE gossip and uses
it for load-based login redirects. It fans activities out to peers and clients.

The model has two layers:

- `Engine` (engine.dfy) specifies the engine as a value. `State` holds eight
  of the source's nine fields. The ninth, the server's own id, never changes
  and is `Config.serverId`. There is one function per handler. Each returns
  an `Outcome`: the new state, the list of sends, and how `process` ends.
- `Server.ControlSolution` (server.dfy) is the engine as the source writes it:
  a class whose set and map fields the handler methods update in place. Every
  `writeMsg` appends `(connection, message)` to the field `sent`. Every
  broadcast is a loop over a set. Each method is proved to move the object's
  state to its `Engine` function's state. It is also proved to append writes
  that carry out that function's sends.

The source iterates over hash sets, so the order of the writes inside one
fan-out is not specified. `Outbox` (outbox.dfy) therefore states a fan-out as
"one copy to each member of the set, in any order" (`Fanout`, `Realizes`).
It proves that the outbox then holds exactly `Copies` copies of each message
for each connection.

`EngineProperties` (properties.dfy) proves properties over any sequence of
events (deliveries, closes, outgoing connections, periodic announcements). It
also proves the registration, login and activity scenarios the protocol is
meant to satisfy.

Connections are opaque numbers. A message is a record whose fields are all
optional, so that a missing JSON key can be represented. The server's random id, the mesh's
shared secret and its announced hostname and port are the constructor's
`Config`. The command strings keep the source's spelling: `LOGIN_FALLED`,
`REGISTER_FALLED`, and `AUTHENTICATION_FALL` for a rejected activity.

### Where the code departs from the protocol's description

The model follows the code in each case below.

- A failed LOGIN closes the client connection (`failMessage` returns true). The
  protocol is described as letting the client retry on the same connection.
- ACTIVITY_MESSAGE is accepted from any connection that quotes valid
  credentials, not only from logged-in clients.
- A LOGIN from a peer connection adds it to the clients too. Peers and clients
  are therefore not kept disjoint, and the invariant does not claim they are.
- LOCK_DENIED removes the name from the credential store even when this server
  has no registration of it in flight. That includes a name this server
  registered itself.
- When a registration is in flight, LOCK_DENIED returns true. That closes the
  peer connection the denial came from, not the client
  (`DeniedRegistrationRollsBack` shows the consequence).
- The server id in LOCK_ALLOWED is read from a field named `server`, which
  `process` does not check for. Without it a `NullPointerException` escapes
  `process`, after the message has been forwarded (`Exit.NullPointerThrown`).
- The awaited-reply sets are keyed by client connection, not by username. A
  second REGISTER on the same connection replaces the first registration's
  set. When the first registration completes it removes that set, and the
  second registration's LOCK_ALLOWED then throws a `NullPointerException`.
  This is also modelled as `Exit.NullPointerThrown`.
- A line that does not parse is only logged. `process` returns false and the
  connection stays open.

## Model

| member | source | states |
|---|---|---|
| Engine.Initial | src/activitystreamer/server/ControlSolution.java:48-61 | a new engine has no connections, no gossip and no registrations in flight; its only credential is `anonymous` with the empty secret; the invariant holds |
| Engine.Authenticate | src/activitystreamer/server/ControlSolution.java:254-272 | the right secret on a connection that is not yet a peer makes it a peer, sends nothing and keeps it open; the right secret on a peer is one INVALID_MESSAGE and a close with the peers unchanged; a wrong secret is one AUTHENTICATION_FAIL and a close with the state unchanged |
| Engine.Login | src/activitystreamer/server/ControlSolution.java:275-311 | a name already in a session, an unknown name or a wrong secret gives one LOGIN_FALLED, a close, and no change; accepted credentials under the load rule give LOGIN_SUCCESS then REDIRECT to the least-loaded peer's address, a close, and no change. The load rule computes the client count minus the remembered load plus one in 32-bit Java `int`s, wrapping as they do (`Protocol.Int32`). Otherwise the connection joins the clients with its session and gets one LOGIN_SUCCESS; the invariant is kept |
| Engine.ActivityMessage | src/activitystreamer/server/ControlSolution.java:313-348 | the state never changes; bad credentials give one AUTHENTICATION_FALL and a close, and no connection receives any ACTIVITY_BROADCAST; good credentials keep the sender open and deliver the activity stamped with `authenticated_user` once to each peer and once to each client other than the sender, and nothing else |
| Engine.ServerAnnounce | src/activitystreamer/server/ControlSolution.java:350-379 | a non-peer gets one INVALID_MESSAGE and is closed with no change; from a peer, the id joins the known ids, the announcement replaces the remembered one exactly when none is remembered or its load is strictly lower, the remembered load never rises, and the message goes unchanged to every other peer |
| Engine.ActivityBroadcast | src/activitystreamer/server/ControlSolution.java:381-400 | the state never changes; a non-peer gets one INVALID_MESSAGE and is closed; from a peer, the message goes once to every other peer and once to every client, and nothing else is sent |
| Engine.Register | src/activitystreamer/server/ControlSolution.java:448-495 | a logged-in client gets INVALID_MESSAGE; a taken name gives REGISTER_FALLED, a close and no change; otherwise the credential is stored; with no peers the client gets REGISTER_SUCCESS at once; with peers the name is recorded in flight for this connection, the connection awaits every known id, and LOCK_REQUEST goes to every peer; the invariant is kept |
| Engine.LockRequest | src/activitystreamer/server/ControlSolution.java:497-541 | a non-peer gets INVALID_MESSAGE and a close; from a peer the request is forwarded to the other peers; a claimed name leaves the state unchanged and LOCK_DENIED goes to all peers; an unclaimed name is stored and LOCK_ALLOWED with this server's id goes to all peers; the connection stays open |
| Engine.LockDenied | src/activitystreamer/server/ControlSolution.java:544-572 | a non-peer gets INVALID_MESSAGE and a close; from a peer the denial is forwarded to the other peers and the name leaves the credential store whatever else holds; if the name is in flight its client gets REGISTER_FALLED, both pending entries go, and the peer connection is closed; otherwise nothing else changes; the invariant is kept |
| Engine.LockAllowed | src/activitystreamer/server/ControlSolution.java:575-609 | a non-peer gets INVALID_MESSAGE and a close; from a peer the message is forwarded to the other peers and the connection is never closed; without a server id, or when the client in flight has no awaited set, a NullPointerException escapes with the state unchanged; otherwise the id leaves the awaited set. When the set becomes empty the writes are exactly the forward and one REGISTER_SUCCESS to the client, and both pending entries are cleared. In every other peer case, the throwing ones included, the forward is the only write |
| Engine.InvalidMessage | src/activitystreamer/server/ControlSolution.java:407-414 | refuses: one INVALID_MESSAGE carrying the given info to the sender, a close, and no change |
| Engine.FailMessage | src/activitystreamer/server/ControlSolution.java:416-423 | refuses: one notice with the given command and info to the sender, a close, and no change |
| Engine.SuccessMessage | src/activitystreamer/server/ControlSolution.java:425-432 | one notice with the given command and info to the sender, which stays open, and no change |
| Engine.Redirect | src/activitystreamer/server/ControlSolution.java:435-445 | after the earlier writes, one REDIRECT to the sender carrying the remembered peer's hostname and port, a close, and no change |
| Engine.LogOut | src/activitystreamer/server/ControlSolution.java:402-404 | LOGOUT closes the connection with no reply and no change |
| Protocol.Int32 | src/activitystreamer/server/ControlSolution.java:292 | Java `int` arithmetic: the result lies in the 32-bit range, is congruent to the exact value modulo 2^32, and equals it when it fits |
| Engine.Validate | src/activitystreamer/server/ControlSolution.java:139-221 | the checks made before dispatch object to a message exactly when it has no command, an unknown command, or a known command without one of the fields that command requires (the table `Required`) |
| Engine.Dispatch | src/activitystreamer/server/ControlSolution.java:145-221 | over a checked message: LOGOUT, INVALID_MESSAGE and AUTHENTICATION_FAIL close with no reply and no change; every handler keeps the invariant, only adds peers, clients and known ids, and never raises the remembered load; only LOCK_ALLOWED can throw |
| Engine.Process | src/activitystreamer/server/ControlSolution.java:131-228 | an unparsable line changes nothing and keeps the connection open; a malformed message gets exactly one INVALID_MESSAGE, a close, and no change; any other message is dispatched; the invariant, the growth of peers, clients and known ids, and the non-increasing load hold for every message |
| Engine.ConnectionClosed | src/activitystreamer/server/ControlSolution.java:113-124 | a closed client loses its session and client status, and every other client and session stays as it was; any other closed connection stops being a peer, with clients and sessions unchanged; nothing else changes; the invariant is kept |
| Engine.OutgoingConnection | src/activitystreamer/server/ControlSolution.java:95-107 | the new connection gets exactly one AUTHENTICATE with the shared secret and is counted as a peer at once; the invariant is kept |
| Engine.DoActivity | src/activitystreamer/server/ControlSolution.java:236-252 | every peer, and no one else, gets exactly one SERVER_ANNOUNCE with this server's id and address and its number of logged-in clients; the state is unchanged |
| Engine.DropPendingKeepsOwnership | src/activitystreamer/server/ControlSolution.java:563-568 | removing a finished or denied registration, together with its client's awaited set, leaves every remaining awaited set owned by a registration in flight |
| Engine.AddPendingKeepsOwnership | src/activitystreamer/server/ControlSolution.java:472-475 | recording a new registration for a client keeps every awaited set owned by a registration in flight |
| Outbox.FanoutCopies | src/activitystreamer/server/ControlSolution.java:332-341 | a fan-out loop over a set, in any order, delivers exactly one copy to each member and none to anyone else |
| Outbox.DeliveredCopies | src/activitystreamer/server/ControlSolution.java:584-603 | writes that carry out a list of sends deliver exactly `Copies` copies of each message to each connection |
| Outbox.RealizesAppend | src/activitystreamer/server/ControlSolution.java:294-295 | writes carrying out two lists of sends, one after the other, carry out the concatenated list |
| Outbox.Chain | src/activitystreamer/server/ControlSolution.java:509-524 | two successive stretches of outbox writes carry out their two lists of sends in turn |
| Outbox.FanoutExtends | src/activitystreamer/server/ControlSolution.java:247-249 | a finished fan-out loop appended to the outbox carries out one send to the whole set |
| Outbox.RecipientsAppend | src/activitystreamer/server/ControlSolution.java:389-393 | one more write in a loop adds its connection once to the recipients |
| Outbox.UniformCount | src/activitystreamer/server/ControlSolution.java:395-397 | when every write of a loop carries the same message, the copies a connection gets are the times it was written to |
| Outbox.CopiesOfOne | src/activitystreamer/server/ControlSolution.java:247-249 | the copies delivered by a single send are that send's copies |
| Outbox.CopiesOfPair | src/activitystreamer/server/ControlSolution.java:331-341 | the copies delivered by two sends are the sum of each send's copies |
| Server.ControlSolution.constructor | src/activitystreamer/server/ControlSolution.java:48-73 | the object starts in `Engine.Initial` with nothing written and the invariant holding |
| Server.ControlSolution.Write | src/activitystreamer/server/ControlSolution.java:412 | one write appends exactly that connection and message to the outbox |
| Server.ControlSolution.Broadcast | src/activitystreamer/server/ControlSolution.java:389-393 | the loop over a set writes the message exactly once to each member, in some order, and writes nothing else |
| Server.ControlSolution.InvalidMessage | src/activitystreamer/server/ControlSolution.java:407-414 | writes one INVALID_MESSAGE with the given info to the connection and answers close |
| Server.ControlSolution.FailMessage | src/activitystreamer/server/ControlSolution.java:416-423 | writes one failure notice to the connection and answers close |
| Server.ControlSolution.SuccessMessage | src/activitystreamer/server/ControlSolution.java:425-432 | writes one success notice to the connection and answers keep open |
| Server.ControlSolution.Redirect | src/activitystreamer/server/ControlSolution.java:435-445 | writes REDIRECT with the least-loaded peer's hostname and port and answers close |
| Server.ControlSolution.Authenticate | src/activitystreamer/server/ControlSolution.java:254-272 | updates the fields and the outbox as `Engine.Authenticate` specifies; the invariant is kept |
| Server.ControlSolution.Login | src/activitystreamer/server/ControlSolution.java:275-311 | updates the fields and the outbox as `Engine.Login` specifies, LOGIN_SUCCESS before REDIRECT, with the load rule's 32-bit wrap-around; the invariant is kept |
| Server.ControlSolution.ActivityMessage | src/activitystreamer/server/ControlSolution.java:313-348 | runs the two fan-out loops, peers first, as `Engine.ActivityMessage` specifies; the invariant is kept |
| Server.ControlSolution.ServerAnnounce | src/activitystreamer/server/ControlSolution.java:350-379 | updates the remembered announcement and known ids and forwards, as `Engine.ServerAnnounce` specifies |
| Server.ControlSolution.ActivityBroadcast | src/activitystreamer/server/ControlSolution.java:381-400 | forwards to the other peers, then to all clients, as `Engine.ActivityBroadcast` specifies |
| Server.ControlSolution.LogOut | src/activitystreamer/server/ControlSolution.java:402-404 | always answers close |
| Server.ControlSolution.Register | src/activitystreamer/server/ControlSolution.java:448-495 | stores the credential and either answers at once or opens the registration and fans out LOCK_REQUEST, as `Engine.Register` specifies |
| Server.ControlSolution.LockRequest | src/activitystreamer/server/ControlSolution.java:497-541 | forwards, then fans out LOCK_DENIED or stores the name and fans out LOCK_ALLOWED, as `Engine.LockRequest` specifies |
| Server.ControlSolution.LockDenied | src/activitystreamer/server/ControlSolution.java:544-572 | forwards, removes the name, and fails and clears a registration in flight, as `Engine.LockDenied` specifies |
| Server.ControlSolution.LockAllowed | src/activitystreamer/server/ControlSolution.java:575-609 | forwards, removes the replying id from the awaited set in place, and completes the registration when the set empties, as `Engine.LockAllowed` specifies, including where it throws |
| Server.ControlSolution.Process | src/activitystreamer/server/ControlSolution.java:131-228 | checks the fields command by command and calls the handler, with the state, writes and ending that `Engine.Process` specifies; the invariant is kept |
| Server.ControlSolution.ConnectionClosed | src/activitystreamer/server/ControlSolution.java:113-124 | updates the connection sets and sessions as `Engine.ConnectionClosed` specifies and writes nothing |
| Server.ControlSolution.OutgoingConnection | src/activitystreamer/server/ControlSolution.java:95-107 | writes AUTHENTICATE with the shared secret and adds the peer, as `Engine.OutgoingConnection` specifies |
| Server.ControlSolution.DoActivity | src/activitystreamer/server/ControlSolution.java:236-252 | fans SERVER_ANNOUNCE out to the peers as `Engine.DoActivity` specifies and never asks to shut down |
| EngineProperties.RunKeepsInvariant | src/activitystreamer/server/ControlSolution.java:114-124 | after any sequence of deliveries, closes, outgoing connections and announcements, the sessions are exactly the logged-in clients, every registration in flight holds its credential, and every awaited set is owned |
| EngineProperties.GossipIsMonotone | src/activitystreamer/server/ControlSolution.java:358-370 | over any sequence of events the known server ids only grow and the remembered least load never rises, disconnections included |
| EngineProperties.ReachableStatesAreValid | src/activitystreamer/server/ControlSolution.java:52-61 | every state reachable from a new engine satisfies the invariant |
| EngineProperties.RegisterWithoutPeers | src/activitystreamer/server/ControlSolution.java:462-491 | with no peers a new name is registered at once with REGISTER_SUCCESS, and a second REGISTER of it fails with REGISTER_FALLED, a close and no change |
| EngineProperties.RegisterWithOnePeer | src/activitystreamer/server/ControlSolution.java:594-605 | with one peer whose id is the only one known, REGISTER only sends LOCK_REQUEST to it, and that peer's LOCK_ALLOWED then delivers REGISTER_SUCCESS to the client and closes the registration |
| EngineProperties.DeniedRegistrationRollsBack | src/activitystreamer/server/ControlSolution.java:561-569 | the peer's LOCK_DENIED instead removes the provisional credential, sends REGISTER_FALLED to the client and closes the peer; once that link is closed, a new REGISTER of the name succeeds locally |
| EngineProperties.LoginRefusals | src/activitystreamer/server/ControlSolution.java:283-310 | LOGIN of an unknown name, or of a name already logged in here, gets LOGIN_FALLED and a close, with no change |
| EngineProperties.RedirectExamples | src/activitystreamer/server/ControlSolution.java:291-301 | five local clients against a peer load of one redirects; two against two logs the client in |
| EngineProperties.WrappedLoadLogsIn | src/activitystreamer/server/ControlSolution.java:291-301 | with no local clients and a peer load of -2147483647 the load rule's difference wraps to -2^31, so the client is logged in rather than redirected |
| EngineProperties.ActivityNeverEchoes | src/activitystreamer/server/ControlSolution.java:336-341 | an ACTIVITY_MESSAGE never sends an ACTIVITY_BROADCAST back to a sender that is not a peer |
| EngineProperties.ForgedActivityReachesNoOne | src/activitystreamer/server/ControlSolution.java:322-347 | an ACTIVITY_MESSAGE with bad credentials is refused with AUTHENTICATION_FALL and no connection receives any ACTIVITY_BROADCAST |
| EngineProperties.OutboxMatchesSends | src/activitystreamer/server/ControlSolution.java:332-341 | across a handler call the outbox gains exactly the copies its sends prescribe for each connection and message |

## Left out

- JSON parsing and serialisation: messages are records. A line that does not parse is `None`, which changes nothing and keeps the connection open.
- `incomingConnection` (reading the first line from the socket), `Connection.writeMsg` and the `Control` base class: the transport is replaced by the outbox `sent` and by the `Closed` and `Deliver` events. The base class's own `connectionClosed`, `start` and `initiateConnection` are not part of this model.
- `Settings`, the random id from `Settings.nextSecret`, and log4j logging: the id, shared secret, hostname and port are the `Config` parameter; logging has no effect.
- `synchronized` and the periodic thread: handlers are atomic, sequential methods, and the timer is the `Tick` event.
- A mesh of several engines and the network between them. This includes the race in which two servers both grant the same new name: it needs more than one engine, and no single engine states it.
- The client program (GUI, sockets, reconnecting after REDIRECT).
- Loads are unbounded integers. A load outside the 32-bit range would make `Integer.parseInt` throw. That case is not modelled: the model applies the 32-bit wrap to whatever load it holds.
- Failures of `Integer.parseInt` on a load, and `ClassCastException` when the activity or a remembered announcement has another JSON type. The load is an integer and the activity a map.
- A JSON key present with the value `null` (the handlers would throw on `toString`): an absent key and a null value are both `None`.
- ACTIVITY_BROADCAST carries the stamped activity as a JSON string in the source. Here it carries the stamped map.
- What the connection's thread does after a `NullPointerException` escapes `process`: the model only records that it was thrown (`Exit.NullPointerThrown`).
