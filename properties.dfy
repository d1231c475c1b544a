/** Properties of the control engine that span several messages: what holds
    over any sequence of events, and the registration, login and activity
    scenarios the design describes. */
module EngineProperties {
  import opened Protocol
  import opened Outbox
  import opened Engine

  /** What can happen to an engine. */
  datatype Event =
    | Deliver(con: Conn, input: Option<Msg>)  // a line arrives and `process` handles it
    | Closed(con: Conn)                       // the transport reports a connection closed
    | Connect(con: Conn)                      // this server opens a connection to another
    | Tick                                    // the periodic `doActivity`

  function Step(cfg: Config, s: State, e: Event): State {
    match e
    case Deliver(con, input) => Process(cfg, s, con, input).state
    case Closed(con) => ConnectionClosed(s, con)
    case Connect(con) => OutgoingConnection(cfg, s, con).state
    case Tick => DoActivity(cfg, s).state
  }

  /** The state after the events, in order. */
  function Run(cfg: Config, s: State, events: seq<Event>): State
    decreases |events|
  {
    if events == [] then s else Run(cfg, Step(cfg, s, events[0]), events[1..])
  }

  /** The engine's invariant holds after any sequence of events. */
  lemma {:induction false} RunKeepsInvariant(cfg: Config, s: State, events: seq<Event>)
    requires Inv(s)
    ensures Inv(Run(cfg, s, events))
    decreases |events|
  {
    if events != [] {
      RunKeepsInvariant(cfg, Step(cfg, s, events[0]), events[1..]);
    }
  }

  /** Gossip only accumulates: known server ids are never forgotten and the
      remembered least load never goes up, whatever happens, disconnections
      included. */
  lemma {:induction false} GossipIsMonotone(cfg: Config, s: State, events: seq<Event>)
    ensures s.knownIds <= Run(cfg, s, events).knownIds
    ensures NoHigherLoad(s.leastLoaded, Run(cfg, s, events).leastLoaded)
    decreases |events|
  {
    if events != [] {
      GossipIsMonotone(cfg, Step(cfg, s, events[0]), events[1..]);
    }
  }

  /** The starting state of every server satisfies the invariant, so every
      reachable state does. */
  lemma ReachableStatesAreValid(cfg: Config, events: seq<Event>)
    ensures Inv(Run(cfg, Initial(), events))
  {
    RunKeepsInvariant(cfg, Initial(), events);
  }

  // ----- registration -----

  function RegisterMsg(username: string, secret: string): Msg {
    BLANK.(command := Some(REGISTER), username := Some(username), secret := Some(secret))
  }

  /** With no peers, a new name is registered at once; a second REGISTER for it,
      from any client not logged in, fails and closes that client. */
  lemma RegisterWithoutPeers(cfg: Config, s: State, first: Conn, second: Conn,
                             username: string, secret: string, secret2: string)
    requires Inv(s) && s.peers == {} && first !in s.clients && second !in s.clients
    requires username !in s.credentials
    ensures var r := Process(cfg, s, first, Some(RegisterMsg(username, secret)));
            && r.exit == Returned(false)
            && Notifies(r.sends, first, REGISTER_SUCCESS)
            && r.state.credentials == s.credentials[username := secret]
            && Rejects(Process(cfg, r.state, second, Some(RegisterMsg(username, secret2))),
                       r.state, second, REGISTER_FALLED)
  {
    var r := Process(cfg, s, first, Some(RegisterMsg(username, secret)));
    assert r == Register(s, first, username, secret);
    assert Process(cfg, r.state, second, Some(RegisterMsg(username, secret2)))
        == Register(r.state, second, username, secret2);
  }

  /** With one peer whose id is the only one known, REGISTER is answered only
      when that peer replies: LOCK_ALLOWED from it completes the registration,
      LOCK_DENIED from it rolls the provisional credential back and fails the
      client. */
  lemma RegisterWithOnePeer(cfg: Config, s: State, client: Conn, peer: Conn, peerId: string,
                            username: string, secret: string)
    requires Inv(s) && s.peers == {peer} && s.knownIds == {peerId}
    requires client !in s.clients && username !in s.credentials
    ensures var r := Process(cfg, s, client, Some(RegisterMsg(username, secret)));
            && r.sends == [ToAll({peer}, LockRequestMsg(username, secret))]
            && r.state.credentials == s.credentials[username := secret]
            && var allowed := Process(cfg, r.state, peer, Some(LockAllowedMsg(username, secret, peerId)));
               && allowed.exit == Returned(false)
               && Copies(allowed.sends, client, RegisterSuccessMsg(username)) == 1
               && allowed.state.credentials[username] == secret
               && username !in allowed.state.pendingOrigin
  {
    var r := Process(cfg, s, client, Some(RegisterMsg(username, secret)));
    assert r == Register(s, client, username, secret);
    var m := LockAllowedMsg(username, secret, peerId);
    assert Validate(m) == None;
    assert Process(cfg, r.state, peer, Some(m)) == LockAllowed(r.state, peer, m);
    assert r.state.pendingReplies[client] - {peerId} == {};
  }

  /** The same registration denied: the name leaves the credential store, the
      client is told REGISTER_FALLED, and the handler's answer closes the peer
      the denial came from. Once that link is closed no peers are left, so a
      new REGISTER of the name succeeds locally at once. */
  lemma DeniedRegistrationRollsBack(cfg: Config, s: State, client: Conn, other: Conn, peer: Conn,
                                    peerId: string, username: string, secret: string, secret2: string)
    requires Inv(s) && s.peers == {peer} && s.knownIds == {peerId}
    requires client !in s.clients && other !in s.clients && peer !in s.clients
    requires username !in s.credentials
    ensures var r := Process(cfg, s, client, Some(RegisterMsg(username, secret)));
            var denied := Process(cfg, r.state, peer, Some(LockDeniedMsg(username, secret)));
            && denied.Closes()
            && Notifies(denied.sends[1..], client, REGISTER_FALLED)
            && username !in denied.state.credentials
            && username !in denied.state.pendingOrigin && client !in denied.state.pendingReplies
            && var afterClose := ConnectionClosed(denied.state, peer);
               var again := Process(cfg, afterClose, other, Some(RegisterMsg(username, secret2)));
               && Notifies(again.sends, other, REGISTER_SUCCESS)
               && again.state.credentials[username] == secret2
  {
    var r := Process(cfg, s, client, Some(RegisterMsg(username, secret)));
    assert r == Register(s, client, username, secret);
    var m := LockDeniedMsg(username, secret);
    assert Validate(m) == None;
    var denied := Process(cfg, r.state, peer, Some(m));
    assert denied == LockDenied(r.state, peer, m);
    var afterClose := ConnectionClosed(denied.state, peer);
    assert afterClose.peers == {};
    assert Process(cfg, afterClose, other, Some(RegisterMsg(username, secret2)))
        == Register(afterClose, other, username, secret2);
  }

  // ----- login -----

  function LoginMsg(username: string, secret: string): Msg {
    BLANK.(command := Some(LOGIN), username := Some(username), secret := Some(secret))
  }

  /** LOGIN of an unknown name, or of a name logged in on this server already,
      is refused with LOGIN_FALLED and closes the connection. */
  lemma LoginRefusals(cfg: Config, s: State, con: Conn, username: string, secret: string)
    requires username !in s.credentials || username in s.sessions.Values
    ensures Rejects(Process(cfg, s, con, Some(LoginMsg(username, secret))), s, con, LOGIN_FALLED)
  {
    assert Process(cfg, s, con, Some(LoginMsg(username, secret))) == Login(s, con, username, secret);
  }

  /** The load rule on the two worked examples: five local clients against a
      peer carrying one is redirected; two against two is not. */
  lemma RedirectExamples(s: State, con: Conn, username: string, secret: string, a: Announcement)
    requires LoginAccepted(s, username, secret) && s.leastLoaded == Some(a)
    ensures |s.clients| == 5 && a.load == 1 ==>
              var r := Login(s, con, username, secret);
              r.Closes() && r.sends[1] == To(con, RedirectMsg(a)) && r.state == s
    ensures |s.clients| == 2 && a.load == 2 ==>
              var r := Login(s, con, username, secret);
              r.exit == Returned(false) && con in r.state.clients && r.state.sessions[con] == username
  {
  }

  /** The load rule's `int` arithmetic wraps: with no local clients and a peer
      announcing load -2147483647, the difference 2^31 wraps to -2^31, so the
      client is logged in here rather than redirected. */
  lemma WrappedLoadLogsIn(s: State, con: Conn, username: string, secret: string, a: Announcement)
    requires LoginAccepted(s, username, secret) && s.leastLoaded == Some(a)
    requires s.clients == {} && a.load == -0x7fff_ffff
    ensures var r := Login(s, con, username, secret);
            && r.exit == Returned(false) && r.state.clients == {con}
            && r.state.sessions == s.sessions[con := username]
  {
    assert Int32(|s.clients| - a.load + 1) == -0x8000_0000;
  }

  // ----- activity -----

  function ActivityMessageMsg(username: string, secret: string, activity: Activity): Msg {
    BLANK.(command := Some(ACTIVITY_MESSAGE), username := Some(username), secret := Some(secret),
           activity := Some(activity))
  }

  /** An ACTIVITY_MESSAGE never sends an ACTIVITY_BROADCAST back to its sender
      (when the sender is not also a peer), whatever its credentials. */
  lemma ActivityNeverEchoes(cfg: Config, s: State, con: Conn, username: string, secret: string,
                            activity: Activity)
    requires con !in s.peers
    ensures var r := Process(cfg, s, con, Some(ActivityMessageMsg(username, secret, activity)));
            forall n | HasCommand(n, ACTIVITY_BROADCAST) :: Copies(r.sends, con, n) == 0
  {
    var m := ActivityMessageMsg(username, secret, activity);
    assert Process(cfg, s, con, Some(m)) == ActivityMessage(s, con, username, secret, activity);
  }

  /** An ACTIVITY_MESSAGE with a wrong secret or an unknown name reaches no one:
      no connection receives any ACTIVITY_BROADCAST. */
  lemma ForgedActivityReachesNoOne(cfg: Config, s: State, con: Conn, username: string, secret: string,
                                   activity: Activity)
    requires !Authentic(s, username, secret)
    ensures var r := Process(cfg, s, con, Some(ActivityMessageMsg(username, secret, activity)));
            && Rejects(r, s, con, AUTHENTICATION_FALL)
            && forall c, n | HasCommand(n, ACTIVITY_BROADCAST) :: Copies(r.sends, c, n) == 0
  {
    var m := ActivityMessageMsg(username, secret, activity);
    assert Process(cfg, s, con, Some(m)) == ActivityMessage(s, con, username, secret, activity);
  }

  /** What the outbox receives during one `process` call: exactly the copies the
      specification's sends prescribe, however each fan-out loop was ordered. */
  lemma OutboxMatchesSends(before: seq<Write>, after: seq<Write>, sends: seq<Send>, c: Conn, m: Msg)
    requires Extends(before, after, sends)
    ensures multiset(after)[(c, m)] == multiset(before)[(c, m)] + Copies(sends, c, m)
  {
    DeliveredCopies(after[|before|..], sends, c, m);
    assert after == before + after[|before|..];
  }
}
