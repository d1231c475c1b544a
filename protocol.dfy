/** Messages exchanged between servers and clients of the activity-streaming mesh.

    A message on the wire is a JSON object whose fields may be absent; here it is
    a record whose fields are all optional, so that a missing field can be
    represented and detected. A connection is an opaque number. */
module Protocol {

  datatype Option<+T> = None | Some(value: T)

  /** An open connection, to a peer server or to a client. */
  type Conn = nat

  /** The JSON object carried by ACTIVITY_MESSAGE, as key/value pairs. */
  type Activity = map<string, string>

  /** A decoded message; `None` stands for a key the JSON object does not have. */
  datatype Msg = Msg(
    command: Option<string>,
    id: Option<string>,
    load: Option<int>,
    hostname: Option<string>,
    port: Option<string>,
    secret: Option<string>,
    username: Option<string>,
    server: Option<string>,
    info: Option<string>,
    activity: Option<Activity>)

  /** The message with no fields at all. */
  const BLANK := Msg(None, None, None, None, None, None, None, None, None, None)

  // Command tags, spelled as the server writes them (including its misspellings).
  const AUTHENTICATE := "AUTHENTICATE"
  const AUTHENTICATION_FAIL := "AUTHENTICATION_FAIL"
  const AUTHENTICATION_FALL := "AUTHENTICATION_FALL"
  const INVALID_MESSAGE := "INVALID_MESSAGE"
  const SERVER_ANNOUNCE := "SERVER_ANNOUNCE"
  const LOGIN := "LOGIN"
  const LOGIN_SUCCESS := "LOGIN_SUCCESS"
  const LOGIN_FALLED := "LOGIN_FALLED"
  const LOGOUT := "LOGOUT"
  const REDIRECT := "REDIRECT"
  const REGISTER := "REGISTER"
  const REGISTER_SUCCESS := "REGISTER_SUCCESS"
  const REGISTER_FALLED := "REGISTER_FALLED"
  const LOCK_REQUEST := "LOCK_REQUEST"
  const LOCK_ALLOWED := "LOCK_ALLOWED"
  const LOCK_DENIED := "LOCK_DENIED"
  const ACTIVITY_MESSAGE := "ACTIVITY_MESSAGE"
  const ACTIVITY_BROADCAST := "ACTIVITY_BROADCAST"

  /** The key the server stamps into an activity to name its author. */
  const AUTHENTICATED_USER := "authenticated_user"

  /** A `{command, info}` reply, the shape of every success, failure and
      invalid-message notice. */
  function Reply(command: string, info: string): Msg {
    BLANK.(command := Some(command), info := Some(info))
  }

  predicate HasCommand(m: Msg, command: string) {
    m.command == Some(command)
  }

  /** Java `int` arithmetic: the 32-bit two's-complement value congruent to `x`
      modulo 2^32, which is what a chain of `int` additions and subtractions
      yields when it overflows. */
  function Int32(x: int): (r: int)
    ensures -0x8000_0000 <= r < 0x8000_0000
    ensures (x - r) % 0x1_0000_0000 == 0
    ensures -0x8000_0000 <= x < 0x8000_0000 ==> r == x
  {
    (x + 0x8000_0000) % 0x1_0000_0000 - 0x8000_0000
  }

  /** The least-loaded peer a server remembers from gossip: the fields of the
      SERVER_ANNOUNCE it kept. */
  datatype Announcement = Announcement(id: string, load: int, hostname: string, port: string)

  /** What a server is started with: its random id, the mesh-wide shared secret,
      and the address it announces. */
  datatype Config = Config(serverId: string, secret: string, hostname: string, port: string)
}
