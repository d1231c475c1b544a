/** The server's control engine as a specification: its state as a value, and
    one function per message handler giving the new state, the writes to make
    and what `process` returns. The class in server.dfy is proved to follow
    these functions; the lemmas in properties.dfy build on them. */
module Engine {
  import opened Protocol
  import opened Outbox

  /** Everything the engine remembers. */
  datatype State = State(
    peers: set<Conn>,                        // authenticated server connections
    clients: set<Conn>,                      // logged-in client connections
    credentials: map<string, string>,        // username -> secret
    pendingOrigin: map<string, Conn>,        // username being registered -> the client that asked
    knownIds: set<string>,                   // server ids heard of through SERVER_ANNOUNCE
    pendingReplies: map<Conn, set<string>>,  // client -> ids of servers yet to send LOCK_ALLOWED
    leastLoaded: Option<Announcement>,       // the lowest-load announcement seen so far
    sessions: map<Conn, string>)             // logged-in client connection -> its username

  /** How `process` ends: it returns whether to close the sending connection, or
      a `NullPointerException` escapes it (the source catches only parse errors). */
  datatype Exit = Returned(close: bool) | NullPointerThrown

  /** The result of handling one message. */
  datatype Outcome = Outcome(state: State, sends: seq<Send>, exit: Exit) {
    predicate Closes() { exit == Returned(true) }
  }

  /** The result of an operation that returns no verdict. */
  datatype Effect = Effect(state: State, sends: seq<Send>)

  const ANONYMOUS := "anonymous"

  /** The engine's invariant: sessions are exactly the logged-in clients, every
      registration in flight holds its provisional credential, and every set of
      awaited replies belongs to a registration in flight. */
  predicate Inv(s: State) {
    && s.sessions.Keys == s.clients
    && s.pendingOrigin.Keys <= s.credentials.Keys
    && s.pendingReplies.Keys <= s.pendingOrigin.Values
  }

  /** A fresh engine: no connections, only the built-in anonymous user. */
  function Initial(): (s: State)
    ensures Inv(s)
    ensures s.credentials == map[ANONYMOUS := ""] && s.peers == {} && s.clients == {}
    ensures s.leastLoaded == None && s.knownIds == {} && s.pendingOrigin == map[]
  {
    State({}, {}, map[ANONYMOUS := ""], map[], {}, map[], None, map[])
  }

  // ----- the messages the engine composes -----

  function LockRequestMsg(username: string, secret: string): Msg {
    BLANK.(command := Some(LOCK_REQUEST), username := Some(username), secret := Some(secret))
  }

  function LockDeniedMsg(username: string, secret: string): Msg {
    BLANK.(command := Some(LOCK_DENIED), username := Some(username), secret := Some(secret))
  }

  function LockAllowedMsg(username: string, secret: string, serverId: string): Msg {
    BLANK.(command := Some(LOCK_ALLOWED), username := Some(username), secret := Some(secret),
           server := Some(serverId))
  }

  function RedirectMsg(a: Announcement): Msg {
    BLANK.(command := Some(REDIRECT), hostname := Some(a.hostname), port := Some(a.port))
  }

  function AnnounceMsg(cfg: Config, load: int): Msg {
    BLANK.(command := Some(SERVER_ANNOUNCE), id := Some(cfg.serverId), load := Some(load),
           hostname := Some(cfg.hostname), port := Some(cfg.port))
  }

  function AuthenticateMsg(cfg: Config): Msg {
    BLANK.(command := Some(AUTHENTICATE), secret := Some(cfg.secret))
  }

  /** The activity as broadcast: stamped with the name of its author. */
  function ActivityBroadcastMsg(activity: Activity, username: string): Msg {
    BLANK.(command := Some(ACTIVITY_BROADCAST), activity := Some(activity[AUTHENTICATED_USER := username]))
  }

  function RegisterSuccessMsg(username: string): Msg {
    Reply(REGISTER_SUCCESS, "register success for" + username)
  }

  // ----- the reply helpers -----

  /** One INVALID_MESSAGE to the sender, which is then closed. */
  function InvalidMessage(s: State, con: Conn, info: string): (r: Outcome)
    ensures Rejects(r, s, con, INVALID_MESSAGE) && r.sends[0].msg.info == Some(info)
  {
    Outcome(s, [To(con, Reply(INVALID_MESSAGE, info))], Returned(true))
  }

  /** One failure notice to the sender, which is then closed. */
  function FailMessage(s: State, con: Conn, command: string, info: string): (r: Outcome)
    ensures Rejects(r, s, con, command) && r.sends[0].msg.info == Some(info)
  {
    Outcome(s, [To(con, Reply(command, info))], Returned(true))
  }

  /** One success notice to the sender, which stays open. */
  function SuccessMessage(s: State, con: Conn, command: string, info: string): (r: Outcome)
    ensures r.state == s && r.exit == Returned(false)
    ensures Notifies(r.sends, con, command) && r.sends[0].msg.info == Some(info)
  {
    Outcome(s, [To(con, Reply(command, info))], Returned(false))
  }

  // ----- vocabulary for the contracts -----

  /** The sends are a single message with tag `command`, to `con`. */
  predicate Notifies(sends: seq<Send>, con: Conn, command: string) {
    |sends| == 1 && sends[0].To? && sends[0].target == con && HasCommand(sends[0].msg, command)
  }

  /** The message is refused: one `command` notice to the sender, which is closed,
      and the engine's state is untouched. */
  predicate Rejects(r: Outcome, s: State, con: Conn, command: string) {
    r.state == s && r.Closes() && Notifies(r.sends, con, command)
  }

  /** The remembered least load never goes up, and once known stays known. */
  predicate NoHigherLoad(before: Option<Announcement>, after: Option<Announcement>) {
    before.Some? ==> after.Some? && after.value.load <= before.value.load
  }

  /** Dropping a finished registration keeps every awaited-reply set owned. */
  lemma DropPendingKeepsOwnership(origins: map<string, Conn>, replies: map<Conn, set<string>>, username: string)
    requires username in origins
    ensures replies.Keys <= origins.Values ==>
              (replies - {origins[username]}).Keys <= (origins - {username}).Values
  {
    if replies.Keys <= origins.Values {
      forall k | k in (replies - {origins[username]}).Keys
        ensures k in (origins - {username}).Values
      {
        var v :| v in origins && origins[v] == k;
        assert (origins - {username})[v] == k;
      }
    }
  }

  /** Opening a registration for a name not yet in flight keeps every
      awaited-reply set owned. */
  lemma AddPendingKeepsOwnership(origins: map<string, Conn>, replies: map<Conn, set<string>>,
                                 username: string, con: Conn, ids: set<string>)
    ensures replies.Keys <= origins.Values && username !in origins ==>
              replies[con := ids].Keys <= origins[username := con].Values
  {
    if replies.Keys <= origins.Values && username !in origins {
      var replies' := replies[con := ids];
      forall k | k in replies'
        ensures k in origins[username := con].Values
      {
        if k == con {
          assert origins[username := con][username] == con;
        } else {
          var v :| v in origins && origins[v] == k;
          assert origins[username := con][v] == k;
        }
      }
    }
  }

  // ----- the handlers -----

  /** AUTHENTICATE from a server. */
  function Authenticate(cfg: Config, s: State, con: Conn, secret: string): (r: Outcome)
    ensures secret != cfg.secret ==> Rejects(r, s, con, AUTHENTICATION_FAIL)
    ensures secret == cfg.secret && con in s.peers ==> Rejects(r, s, con, INVALID_MESSAGE)
    ensures secret == cfg.secret && con !in s.peers ==>
              r.state == s.(peers := s.peers + {con}) && r.sends == [] && r.exit == Returned(false)
  {
    if secret == cfg.secret then
      if con !in s.peers then Outcome(s.(peers := s.peers + {con}), [], Returned(false))
      else InvalidMessage(s, con, "authenticate already")
    else
      FailMessage(s, con, AUTHENTICATION_FAIL, "the supplied secret is incorrect:" + secret)
  }

  /** The credentials let `username` in: it is not logged in anywhere on this
      server, it is registered, and the secret is its secret. */
  predicate LoginAccepted(s: State, username: string, secret: string) {
    username !in s.sessions.Values && username in s.credentials && s.credentials[username] == secret
  }

  /** The load rule: some peer is known to carry at least two clients fewer than
      this server will once the new client is counted. The difference is
      computed in Java `int`s and wraps, so a remembered load below
      `|clients| + 2 - 2^31` lets the client in here instead. */
  predicate ShouldRedirect(s: State) {
    s.leastLoaded.Some? && Int32(|s.clients| - s.leastLoaded.value.load + 1) > 2
  }

  /** LOGIN from a client. */
  function Login(s: State, con: Conn, username: string, secret: string): (r: Outcome)
    ensures !LoginAccepted(s, username, secret) ==> Rejects(r, s, con, LOGIN_FALLED)
    ensures LoginAccepted(s, username, secret) && ShouldRedirect(s) ==>
              && r.state == s && r.Closes() && |r.sends| == 2
              && r.sends[0].To? && r.sends[0].target == con && HasCommand(r.sends[0].msg, LOGIN_SUCCESS)
              && r.sends[1] == To(con, RedirectMsg(s.leastLoaded.value))
    ensures LoginAccepted(s, username, secret) && !ShouldRedirect(s) ==>
              && r.state == s.(clients := s.clients + {con}, sessions := s.sessions[con := username])
              && r.exit == Returned(false) && Notifies(r.sends, con, LOGIN_SUCCESS)
    ensures Inv(s) ==> Inv(r.state)
  {
    if username in s.sessions.Values then
      FailMessage(s, con, LOGIN_FALLED, "already login in")
    else if username in s.credentials then
      if s.credentials[username] == secret then
        if s.leastLoaded.Some? && Int32(|s.clients| - s.leastLoaded.value.load + 1) > 2 then
          var greeting := SuccessMessage(s, con, LOGIN_SUCCESS, "logged in as user  " + username);
          Redirect(s, con, greeting.sends)
        else
          SuccessMessage(s.(clients := s.clients + {con}, sessions := s.sessions[con := username]),
                         con, LOGIN_SUCCESS, "logged in as user  " + username)
      else
        FailMessage(s, con, LOGIN_FALLED, "secret not match")
    else
      FailMessage(s, con, LOGIN_FALLED, "username no found")
  }

  /** Sends REDIRECT to the least-loaded peer's address after `before`, and closes. */
  function Redirect(s: State, con: Conn, before: seq<Send>): (r: Outcome)
    requires s.leastLoaded.Some?
    ensures r.state == s && r.Closes() && |r.sends| == |before| + 1 && r.sends[..|before|] == before
    ensures var last := r.sends[|before|];
            && last.To? && last.target == con && HasCommand(last.msg, REDIRECT)
            && last.msg.hostname == Some(s.leastLoaded.value.hostname)
            && last.msg.port == Some(s.leastLoaded.value.port)
  {
    Outcome(s, before + [To(con, RedirectMsg(s.leastLoaded.value))], Returned(true))
  }

  /** The pair is a registered user with its own secret. */
  predicate Authentic(s: State, username: string, secret: string) {
    username in s.credentials && s.credentials[username] == secret
  }

  /** ACTIVITY_MESSAGE from a client. */
  function ActivityMessage(s: State, con: Conn, username: string, secret: string, activity: Activity): (r: Outcome)
    ensures r.state == s
    ensures !Authentic(s, username, secret) ==> Rejects(r, s, con, AUTHENTICATION_FALL)
    ensures !Authentic(s, username, secret) ==>
              forall c, m | HasCommand(m, ACTIVITY_BROADCAST) :: Copies(r.sends, c, m) == 0
    ensures Authentic(s, username, secret) ==>
              && r.exit == Returned(false)
              && forall c, m :: Copies(r.sends, c, m) ==
                   if m == ActivityBroadcastMsg(activity, username)
                   then (if c in s.peers then 1 else 0) + (if c in s.clients && c != con then 1 else 0)
                   else 0
  {
    if username in s.credentials && s.credentials[username] == secret then
      var b := ActivityBroadcastMsg(activity, username);
      CopiesOfPair(ToAll(s.peers, b), ToAll(s.clients - {con}, b));
      Outcome(s, [ToAll(s.peers, b), ToAll(s.clients - {con}, b)], Returned(false))
    else
      FailMessage(s, con, AUTHENTICATION_FALL, "no authreise")
  }

  /** The fields of a SERVER_ANNOUNCE that the engine keeps. */
  function AnnouncementOf(m: Msg): Announcement
    requires m.id.Some? && m.load.Some? && m.hostname.Some? && m.port.Some?
  {
    Announcement(m.id.value, m.load.value, m.hostname.value, m.port.value)
  }

  /** SERVER_ANNOUNCE from a server. */
  function ServerAnnounce(s: State, con: Conn, m: Msg): (r: Outcome)
    requires m.id.Some? && m.load.Some? && m.hostname.Some? && m.port.Some?
    ensures con !in s.peers ==> Rejects(r, s, con, INVALID_MESSAGE)
    ensures con in s.peers ==>
              && r.exit == Returned(false)
              && r.sends == [ToAll(s.peers - {con}, m)]
              && r.state == s.(knownIds := s.knownIds + {m.id.value}, leastLoaded := r.state.leastLoaded)
              && r.state.leastLoaded.Some?
              && r.state.leastLoaded.value.load <= m.load.value
              && (r.state.leastLoaded != s.leastLoaded <==>
                    s.leastLoaded.None? || m.load.value < s.leastLoaded.value.load)
              && (r.state.leastLoaded != s.leastLoaded ==> r.state.leastLoaded == Some(AnnouncementOf(m)))
    ensures NoHigherLoad(s.leastLoaded, r.state.leastLoaded)
  {
    if con !in s.peers then
      InvalidMessage(s, con, "recive boardcast from non-authourised server")
    else
      var a := AnnouncementOf(m);
      var least :=
        if s.leastLoaded.None? then Some(a)
        else if s.leastLoaded.value.load > a.load then Some(a)
        else s.leastLoaded;
      Outcome(s.(leastLoaded := least, knownIds := s.knownIds + {a.id}),
              [ToAll(s.peers - {con}, m)], Returned(false))
  }

  /** ACTIVITY_BROADCAST from a server. */
  function ActivityBroadcast(s: State, con: Conn, m: Msg): (r: Outcome)
    ensures r.state == s
    ensures con !in s.peers ==> Rejects(r, s, con, INVALID_MESSAGE)
    ensures con in s.peers ==>
              && r.exit == Returned(false)
              && forall c, n :: Copies(r.sends, c, n) ==
                   if n == m then (if c in s.peers && c != con then 1 else 0) + (if c in s.clients then 1 else 0)
                   else 0
  {
    if con !in s.peers then
      InvalidMessage(s, con, "recive boardcast from non-au server")
    else
      CopiesOfPair(ToAll(s.peers - {con}, m), ToAll(s.clients, m));
      Outcome(s, [ToAll(s.peers - {con}, m), ToAll(s.clients, m)], Returned(false))
  }

  /** LOGOUT: nothing to answer; the connection is closed. */
  function LogOut(s: State): (r: Outcome)
    ensures r.state == s && r.sends == [] && r.Closes()
  {
    Outcome(s, [], Returned(true))
  }

  /** REGISTER from a client. */
  function Register(s: State, con: Conn, username: string, secret: string): (r: Outcome)
    ensures con in s.clients ==> Rejects(r, s, con, INVALID_MESSAGE)
    ensures con !in s.clients && username in s.credentials ==> Rejects(r, s, con, REGISTER_FALLED)
    ensures con !in s.clients && username !in s.credentials && s.peers == {} ==>
              && r.state == s.(credentials := s.credentials[username := secret])
              && r.exit == Returned(false) && Notifies(r.sends, con, REGISTER_SUCCESS)
    ensures con !in s.clients && username !in s.credentials && s.peers != {} ==>
              && r.state == s.(credentials := s.credentials[username := secret],
                               pendingOrigin := s.pendingOrigin[username := con],
                               pendingReplies := s.pendingReplies[con := s.knownIds])
              && r.exit == Returned(false)
              && r.sends == [ToAll(s.peers, LockRequestMsg(username, secret))]
    ensures Inv(s) ==> Inv(r.state)
  {
    if con in s.clients then
      InvalidMessage(s, con, "logined client")
    else if username in s.credentials then
      FailMessage(s, con, REGISTER_FALLED, username + " is already registered with the system")
    else
      var s' := s.(credentials := s.credentials[username := secret]);
      if |s.peers| > 0 then
        AddPendingKeepsOwnership(s.pendingOrigin, s.pendingReplies, username, con, s.knownIds);
        Outcome(s'.(pendingOrigin := s.pendingOrigin[username := con],
                    pendingReplies := s.pendingReplies[con := s.knownIds]),
                [ToAll(s.peers, LockRequestMsg(username, secret))], Returned(false))
      else
        SuccessMessage(s', con, REGISTER_SUCCESS, "register success for" + username)
  }

  /** LOCK_REQUEST from a server. */
  function LockRequest(cfg: Config, s: State, con: Conn, m: Msg): (r: Outcome)
    requires m.username.Some? && m.secret.Some?
    ensures con !in s.peers ==> Rejects(r, s, con, INVALID_MESSAGE)
    ensures con in s.peers ==>
              && r.exit == Returned(false) && |r.sends| == 2
              && r.sends[0] == ToAll(s.peers - {con}, m)
    ensures con in s.peers && m.username.value in s.credentials ==>
              && r.state == s
              && r.sends[1] == ToAll(s.peers, LockDeniedMsg(m.username.value, m.secret.value))
    ensures con in s.peers && m.username.value !in s.credentials ==>
              && r.state == s.(credentials := s.credentials[m.username.value := m.secret.value])
              && r.sends[1] == ToAll(s.peers, LockAllowedMsg(m.username.value, m.secret.value, cfg.serverId))
    ensures Inv(s) ==> Inv(r.state)
  {
    if con !in s.peers then
      InvalidMessage(s, con, "unau server")
    else
      var username, secret := m.username.value, m.secret.value;
      var forward := ToAll(s.peers - {con}, m);
      if username in s.credentials then
        Outcome(s, [forward, ToAll(s.peers, LockDeniedMsg(username, secret))], Returned(false))
      else
        Outcome(s.(credentials := s.credentials[username := secret]),
                [forward, ToAll(s.peers, LockAllowedMsg(username, secret, cfg.serverId))], Returned(false))
  }

  /** LOCK_DENIED from a server. */
  function LockDenied(s: State, con: Conn, m: Msg): (r: Outcome)
    requires m.username.Some? && m.secret.Some?
    ensures con !in s.peers ==> Rejects(r, s, con, INVALID_MESSAGE)
    ensures con in s.peers ==>
              && r.exit.Returned? && 1 <= |r.sends|
              && r.sends[0] == ToAll(s.peers - {con}, m)
              && r.state.credentials == s.credentials - {m.username.value}
              && r.state == s.(credentials := r.state.credentials,
                               pendingOrigin := r.state.pendingOrigin,
                               pendingReplies := r.state.pendingReplies)
    ensures con in s.peers && m.username.value !in s.pendingOrigin ==>
              && r.exit == Returned(false) && |r.sends| == 1
              && r.state.pendingOrigin == s.pendingOrigin && r.state.pendingReplies == s.pendingReplies
    ensures con in s.peers && m.username.value in s.pendingOrigin ==>
              && r.Closes() && |r.sends| == 2
              && Notifies(r.sends[1..], s.pendingOrigin[m.username.value], REGISTER_FALLED)
              && r.state.pendingOrigin == s.pendingOrigin - {m.username.value}
              && r.state.pendingReplies == s.pendingReplies - {s.pendingOrigin[m.username.value]}
    ensures Inv(s) ==> Inv(r.state)
  {
    if con !in s.peers then
      InvalidMessage(s, con, "unau server")
    else
      var username := m.username.value;
      var forward := ToAll(s.peers - {con}, m);
      var s' := s.(credentials := s.credentials - {username});
      if username in s.pendingOrigin then
        var origin := s.pendingOrigin[username];
        var failure := FailMessage(s', origin, REGISTER_FALLED, username + "is already registered with the system");
        DropPendingKeepsOwnership(s.pendingOrigin, s.pendingReplies, username);
        Outcome(s'.(pendingReplies := s.pendingReplies - {origin},
                    pendingOrigin := s.pendingOrigin - {username}),
                [forward] + failure.sends, Returned(true))
      else
        Outcome(s', [forward], Returned(false))
  }

  /** LOCK_ALLOWED from a server. */
  function LockAllowed(s: State, con: Conn, m: Msg): (r: Outcome)
    requires HasCommand(m, LOCK_ALLOWED) && m.username.Some? && m.secret.Some?
    ensures con !in s.peers ==> Rejects(r, s, con, INVALID_MESSAGE)
    ensures con in s.peers ==>
              && !r.Closes() && 1 <= |r.sends|
              && r.sends[0] == ToAll(s.peers - {con}, m)
              && r.state == s.(pendingOrigin := r.state.pendingOrigin, pendingReplies := r.state.pendingReplies)
    ensures con in s.peers && m.server.None? ==>
              r.exit == NullPointerThrown && r.state == s && |r.sends| == 1
    ensures con in s.peers && m.server.Some? && m.username.value !in s.pendingOrigin ==>
              r.exit == Returned(false) && r.state == s && |r.sends| == 1
    ensures con in s.peers && m.server.Some? && m.username.value in s.pendingOrigin ==>
              var origin := s.pendingOrigin[m.username.value];
              && (origin !in s.pendingReplies ==>
                    r.exit == NullPointerThrown && r.state == s && |r.sends| == 1)
              && (origin in s.pendingReplies ==>
                    var left := s.pendingReplies[origin] - {m.server.value};
                    && r.exit == Returned(false)
                    && (Copies(r.sends, origin, RegisterSuccessMsg(m.username.value)) == 1 <==> left == {})
                    && (left == {} ==>
                          && r.sends == [ToAll(s.peers - {con}, m), To(origin, RegisterSuccessMsg(m.username.value))]
                          && r.state.pendingOrigin == s.pendingOrigin - {m.username.value}
                          && r.state.pendingReplies == s.pendingReplies - {origin})
                    && (left != {} ==>
                          && |r.sends| == 1
                          && r.state.pendingOrigin == s.pendingOrigin
                          && r.state.pendingReplies == s.pendingReplies[origin := left]))
    ensures Inv(s) ==> Inv(r.state)
  {
    if con !in s.peers then
      InvalidMessage(s, con, "unau server")
    else
      var forward := [ToAll(s.peers - {con}, m)];
      if m.server.None? then
        Outcome(s, forward, NullPointerThrown)
      else
        var username, id := m.username.value, m.server.value;
        if username in s.pendingOrigin then
          var origin := s.pendingOrigin[username];
          if origin !in s.pendingReplies then
            Outcome(s, forward, NullPointerThrown)
          else
            var left := s.pendingReplies[origin] - {id};
            if left == {} then
              var success := SuccessMessage(s, origin, REGISTER_SUCCESS, "register success for" + username);
              DropPendingKeepsOwnership(s.pendingOrigin, s.pendingReplies, username);
              CopiesOfPair(forward[0], success.sends[0]);
              Outcome(s.(pendingReplies := s.pendingReplies - {origin},
                         pendingOrigin := s.pendingOrigin - {username}),
                      forward + success.sends, Returned(false))
            else
              CopiesOfOne(forward[0]);
              Outcome(s.(pendingReplies := s.pendingReplies[origin := left]), forward, Returned(false))
        else
          Outcome(s, forward, Returned(false))
  }

  // ----- the dispatcher -----

  /** The fields `process` checks for before handing a message on. */
  datatype Field = IdField | LoadField | HostnameField | PortField | SecretField
                 | UsernameField | ActivityField | InfoField

  predicate Has(m: Msg, f: Field) {
    match f
    case IdField => m.id.Some?
    case LoadField => m.load.Some?
    case HostnameField => m.hostname.Some?
    case PortField => m.port.Some?
    case SecretField => m.secret.Some?
    case UsernameField => m.username.Some?
    case ActivityField => m.activity.Some?
    case InfoField => m.info.Some?
  }

  /** The commands the engine accepts, each with the fields it requires;
      `None` for a command it does not know. */
  function Required(command: string): Option<set<Field>> {
    if command == SERVER_ANNOUNCE then Some({IdField, LoadField, HostnameField, PortField})
    else if command == AUTHENTICATE then Some({SecretField})
    else if command == ACTIVITY_MESSAGE then Some({UsernameField, SecretField, ActivityField})
    else if command in {LOGIN, REGISTER, LOCK_REQUEST, LOCK_DENIED, LOCK_ALLOWED} then Some({UsernameField, SecretField})
    else if command == ACTIVITY_BROADCAST then Some({ActivityField})
    else if command == AUTHENTICATION_FAIL then Some({InfoField})
    else if command in {INVALID_MESSAGE, LOGOUT} then Some({})
    else None
  }

  /** No command, an unknown command, or a known one without a field it needs. */
  predicate Malformed(m: Msg) {
    || m.command.None?
    || Required(m.command.value).None?
    || exists f :: f in Required(m.command.value).value && !Has(m, f)
  }

  /** The checks `process` makes before dispatching, in its order: the info of
      the INVALID_MESSAGE it answers with, or `None` when the message may go on
      to its handler. It objects exactly to the malformed messages. */
  function Validate(m: Msg): (r: Option<string>)
    ensures r.Some? <==> Malformed(m)
  {
    if m.command.None? then Some("no command")
    else
      var command := m.command.value;
      if command == SERVER_ANNOUNCE then
        if m.id.None? then Some("no id")
        else if m.load.None? then Some("no load")
        else if m.hostname.None? then Some("no hostname")
        else if m.port.None? then Some("no port")
        else None
      else if command == AUTHENTICATE then
        if m.secret.None? then Some("no secret") else None
      else if command == ACTIVITY_BROADCAST then
        if m.activity.None? then Some("no activity") else None
      else if command in {LOGIN, REGISTER, LOCK_REQUEST, LOCK_DENIED, LOCK_ALLOWED} then
        if m.username.None? then Some("no username")
        else if m.secret.None? then Some("no secret")
        else None
      else if command == ACTIVITY_MESSAGE then
        if m.username.None? then Some("no username")
        else if m.secret.None? then Some("no secret")
        else if m.activity.None? then Some("no activity")
        else None
      else if command == AUTHENTICATION_FAIL then
        if m.info.None? then Some("no info") else None
      else if command in {INVALID_MESSAGE, LOGOUT} then None
      else Some("invalidMessage")
  }

  /** The switch of `process` over a message that passed `Validate`. */
  function Dispatch(cfg: Config, s: State, con: Conn, m: Msg): (r: Outcome)
    requires Validate(m).None?
    ensures Inv(s) ==> Inv(r.state)
    ensures s.peers <= r.state.peers && s.clients <= r.state.clients && s.knownIds <= r.state.knownIds
    ensures NoHigherLoad(s.leastLoaded, r.state.leastLoaded)
    ensures r.exit == NullPointerThrown ==> HasCommand(m, LOCK_ALLOWED)
    ensures HasCommand(m, LOGOUT) || HasCommand(m, INVALID_MESSAGE) || HasCommand(m, AUTHENTICATION_FAIL) ==>
              r == Outcome(s, [], Returned(true))
  {
    var command := m.command.value;
    if command == INVALID_MESSAGE then Outcome(s, [], Returned(true))
    else if command == SERVER_ANNOUNCE then ServerAnnounce(s, con, m)
    else if command == AUTHENTICATE then Authenticate(cfg, s, con, m.secret.value)
    else if command == LOGOUT then LogOut(s)
    else if command == ACTIVITY_BROADCAST then ActivityBroadcast(s, con, m)
    else if command == LOGIN then Login(s, con, m.username.value, m.secret.value)
    else if command == ACTIVITY_MESSAGE then
      ActivityMessage(s, con, m.username.value, m.secret.value, m.activity.value)
    else if command == REGISTER then Register(s, con, m.username.value, m.secret.value)
    else if command == LOCK_REQUEST then LockRequest(cfg, s, con, m)
    else if command == LOCK_DENIED then LockDenied(s, con, m)
    else if command == LOCK_ALLOWED then LockAllowed(s, con, m)
    else Outcome(s, [], Returned(true))  // AUTHENTICATION_FAIL carrying its info
  }

  /** `process`: one line from connection `con`, `None` if it did not parse
      (the parse error is only logged and the connection stays open). */
  function Process(cfg: Config, s: State, con: Conn, input: Option<Msg>): (r: Outcome)
    ensures input.None? ==> r == Outcome(s, [], Returned(false))
    ensures input.Some? && Malformed(input.value) ==> Rejects(r, s, con, INVALID_MESSAGE)
    ensures input.Some? && !Malformed(input.value) ==> r == Dispatch(cfg, s, con, input.value)
    ensures Inv(s) ==> Inv(r.state)
    ensures s.peers <= r.state.peers && s.clients <= r.state.clients && s.knownIds <= r.state.knownIds
    ensures NoHigherLoad(s.leastLoaded, r.state.leastLoaded)
  {
    match input
    case None => Outcome(s, [], Returned(false))
    case Some(m) =>
      match Validate(m)
      case Some(info) => InvalidMessage(s, con, info)
      case None => Dispatch(cfg, s, con, m)
  }

  // ----- connection life cycle and the periodic announcement -----

  /** The transport reports `con` closed: a client loses its session, any other
      connection stops being a peer. */
  function ConnectionClosed(s: State, con: Conn): (t: State)
    ensures Inv(s) ==> Inv(t) && con !in t.sessions
    ensures con !in t.clients
    ensures con in s.clients ==>
              t.peers == s.peers && t.clients == s.clients - {con} && t.sessions == s.sessions - {con}
    ensures con !in s.clients ==>
              t.peers == s.peers - {con} && t.clients == s.clients && t.sessions == s.sessions
    ensures t == s.(peers := t.peers, clients := t.clients, sessions := t.sessions)
    ensures t.sessions.Keys <= s.sessions.Keys
  {
    if con in s.clients then s.(clients := s.clients - {con}, sessions := s.sessions - {con})
    else s.(peers := s.peers - {con})
  }

  /** This server opened `con` to another server: it sends the shared secret and
      counts `con` as a peer straight away, without waiting for an answer. */
  function OutgoingConnection(cfg: Config, s: State, con: Conn): (r: Effect)
    ensures r.state == s.(peers := s.peers + {con})
    ensures forall c, m :: Copies(r.sends, c, m) == if c == con && m == AuthenticateMsg(cfg) then 1 else 0
    ensures Inv(s) ==> Inv(r.state)
  {
    CopiesOfOne(To(con, AuthenticateMsg(cfg)));
    Effect(s.(peers := s.peers + {con}), [To(con, AuthenticateMsg(cfg))])
  }

  /** `doActivity`, run every few seconds: one SERVER_ANNOUNCE, carrying this
      server's id, address and number of logged-in clients, to every peer. */
  function DoActivity(cfg: Config, s: State): (r: Effect)
    ensures r.state == s
    ensures forall c, m :: Copies(r.sends, c, m) ==
              if c in s.peers && m == AnnounceMsg(cfg, |s.clients|) then 1 else 0
  {
    CopiesOfOne(ToAll(s.peers, AnnounceMsg(cfg, |s.clients|)));
    Effect(s, [ToAll(s.peers, AnnounceMsg(cfg, |s.clients|))])
  }
}
