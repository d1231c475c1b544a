/** The control engine as the server runs it: one object whose sets and maps
    the handlers update in place, and whose writes to connections are appended
    to `sent`. Every method is proved to do what the matching function of
    module Engine specifies. */
module Server {
  import opened Protocol
  import opened Outbox
  import opened Engine

  class ControlSolution {
    const config: Config
    var peers: set<Conn>                       // conToSer
    var clients: set<Conn>                     // conToClient
    var credentials: map<string, string>       // clientRecord
    var pendingOrigin: map<string, Conn>       // registerLog
    var knownIds: set<string>                  // serverIdSet
    var pendingReplies: map<Conn, set<string>> // lockAllowReply
    var leastLoaded: Option<Announcement>      // freeServer
    var sessions: map<Conn, string>            // loginLog
    /** Every message written to a connection so far, oldest first. */
    var sent: seq<Write>

    /** The engine's state as a value. */
    function Abstract(): State
      reads this
    {
      State(peers, clients, credentials, pendingOrigin, knownIds, pendingReplies, leastLoaded, sessions)
    }

    ghost predicate Valid()
      reads this
    {
      Inv(Abstract())
    }

    /** Since `before`, the engine moved to `r.state`, wrote `r.sends`, and ended with `exit`. */
    ghost predicate Follows(sentBefore: seq<Write>, r: Outcome, exit: Exit)
      reads this
    {
      Abstract() == r.state && Extends(sentBefore, sent, r.sends) && exit == r.exit
    }

    constructor (cfg: Config)
      ensures config == cfg && Abstract() == Initial() && sent == [] && Valid()
    {
      config := cfg;
      peers, clients := {}, {};
      credentials := map[ANONYMOUS := ""];
      pendingOrigin, pendingReplies := map[], map[];
      knownIds := {};
      leastLoaded := None;
      sessions := map[];
      sent := [];
    }

    // ----- writing to connections -----

    /** `writeMsg` on one connection. */
    method Write(con: Conn, m: Msg)
      modifies this`sent
      ensures sent == old(sent) + [(con, m)]
      ensures Extends(old(sent), sent, [To(con, m)])
    {
      sent := sent + [(con, m)];
      assert sent[|old(sent)|..] == [(con, m)];
      assert sent[|old(sent)|..][1..] == [];
    }

    /** The loop `for (Connection c : targets) c.writeMsg(m)`, in whatever order
        the set yields its members. */
    method Broadcast(targets: set<Conn>, m: Msg)
      modifies this`sent
      ensures Extends(old(sent), sent, [ToAll(targets, m)])
    {
      var rest := targets;
      ghost var batch: seq<Write> := [];
      while rest != {}
        invariant rest <= targets
        invariant sent == old(sent) + batch
        invariant |batch| == |targets - rest|
        invariant forall i | 0 <= i < |batch| :: batch[i].1 == m
        invariant Recipients(batch) == multiset(targets - rest)
        decreases rest
      {
        var c :| c in rest;
        RecipientsAppend(batch, (c, m));
        assert targets - (rest - {c}) == (targets - rest) + {c};
        sent := sent + [(c, m)];
        batch := batch + [(c, m)];
        rest := rest - {c};
      }
      assert targets - rest == targets;
      FanoutExtends(old(sent), batch, targets, m);
    }

    /** `invalidMessage`: one INVALID_MESSAGE to `con`; the answer is to close it. */
    method InvalidMessage(con: Conn, info: string) returns (close: bool)
      modifies this`sent
      ensures close && Extends(old(sent), sent, Engine.InvalidMessage(Abstract(), con, info).sends)
    {
      Write(con, Reply(INVALID_MESSAGE, info));
      close := true;
    }

    /** `failMessage`: one failure notice to `con`; the answer is to close it. */
    method FailMessage(con: Conn, command: string, info: string) returns (close: bool)
      modifies this`sent
      ensures close && Extends(old(sent), sent, Engine.FailMessage(Abstract(), con, command, info).sends)
    {
      Write(con, Reply(command, info));
      close := true;
    }

    /** `successMessage`: one success notice to `con`, which stays open. */
    method SuccessMessage(con: Conn, command: string, info: string) returns (close: bool)
      modifies this`sent
      ensures !close && Extends(old(sent), sent, Engine.SuccessMessage(Abstract(), con, command, info).sends)
    {
      Write(con, Reply(command, info));
      close := false;
    }

    /** `redirect`: REDIRECT to the least-loaded peer's address; the answer is to close. */
    method Redirect(con: Conn) returns (close: bool)
      requires leastLoaded.Some?
      modifies this`sent
      ensures close && Extends(old(sent), sent, [To(con, RedirectMsg(leastLoaded.value))])
    {
      Write(con, RedirectMsg(leastLoaded.value));
      close := true;
    }

    // ----- the handlers -----

    method Authenticate(con: Conn, secret: string) returns (close: bool)
      requires Valid()
      modifies this
      ensures Follows(old(sent), Engine.Authenticate(config, old(Abstract()), con, secret), Returned(close))
      ensures Valid()
    {
      if secret == config.secret {
        if con !in peers {
          peers := peers + {con};
          close := false;
        } else {
          close := InvalidMessage(con, "authenticate already");
        }
      } else {
        close := FailMessage(con, AUTHENTICATION_FAIL, "the supplied secret is incorrect:" + secret);
      }
    }

    method Login(con: Conn, username: string, secret: string) returns (close: bool)
      requires Valid()
      modifies this
      ensures Follows(old(sent), Engine.Login(old(Abstract()), con, username, secret), Returned(close))
      ensures Valid()
    {
      if username in sessions.Values {
        close := FailMessage(con, LOGIN_FALLED, "already login in");
        return;
      }
      if username in credentials {
        if credentials[username] == secret {
          if leastLoaded.Some? {
            if Int32(|clients| - leastLoaded.value.load + 1) > 2 {
              ghost var s0 := sent;
              var _ := SuccessMessage(con, LOGIN_SUCCESS, "logged in as user  " + username);
              ghost var s1 := sent;
              close := Redirect(con);
              Chain(s0, s1, sent, [To(con, Reply(LOGIN_SUCCESS, "logged in as user  " + username))],
                    [To(con, RedirectMsg(leastLoaded.value))]);
              return;
            }
          }
          clients := clients + {con};
          sessions := sessions[con := username];
          close := SuccessMessage(con, LOGIN_SUCCESS, "logged in as user  " + username);
        } else {
          close := FailMessage(con, LOGIN_FALLED, "secret not match");
        }
      } else {
        close := FailMessage(con, LOGIN_FALLED, "username no found");
      }
    }

    method ActivityMessage(con: Conn, username: string, secret: string, activity: Activity)
      returns (close: bool)
      requires Valid()
      modifies this
      ensures Follows(old(sent), Engine.ActivityMessage(old(Abstract()), con, username, secret, activity),
                      Returned(close))
      ensures Valid()
    {
      if username in credentials && credentials[username] == secret {
        var response := ActivityBroadcastMsg(activity, username);
        ghost var s0 := sent;
        Broadcast(peers, response);
        ghost var s1 := sent;
        Broadcast(clients - {con}, response);
        Chain(s0, s1, sent, [ToAll(peers, response)], [ToAll(clients - {con}, response)]);
        close := false;
      } else {
        close := FailMessage(con, AUTHENTICATION_FALL, "no authreise");
      }
    }

    method ServerAnnounce(con: Conn, m: Msg) returns (close: bool)
      requires Valid()
      requires m.id.Some? && m.load.Some? && m.hostname.Some? && m.port.Some?
      modifies this
      ensures Follows(old(sent), Engine.ServerAnnounce(old(Abstract()), con, m), Returned(close))
      ensures Valid()
    {
      if con !in peers {
        close := InvalidMessage(con, "recive boardcast from non-authourised server");
        return;
      }
      if leastLoaded.None? {
        leastLoaded := Some(AnnouncementOf(m));
      }
      if leastLoaded.value.load > m.load.value {
        leastLoaded := Some(AnnouncementOf(m));
      }
      knownIds := knownIds + {m.id.value};
      Broadcast(peers - {con}, m);
      close := false;
    }

    method ActivityBroadcast(con: Conn, m: Msg) returns (close: bool)
      requires Valid()
      modifies this
      ensures Follows(old(sent), Engine.ActivityBroadcast(old(Abstract()), con, m), Returned(close))
      ensures Valid()
    {
      if con !in peers {
        close := InvalidMessage(con, "recive boardcast from non-au server");
        return;
      }
      ghost var s0 := sent;
      Broadcast(peers - {con}, m);
      ghost var s1 := sent;
      Broadcast(clients, m);
      Chain(s0, s1, sent, [ToAll(peers - {con}, m)], [ToAll(clients, m)]);
      close := false;
    }

    method LogOut() returns (close: bool)
      ensures close
    {
      close := true;
    }

    method Register(con: Conn, username: string, secret: string) returns (close: bool)
      requires Valid()
      modifies this
      ensures Follows(old(sent), Engine.Register(old(Abstract()), con, username, secret), Returned(close))
      ensures Valid()
    {
      if con in clients {
        close := InvalidMessage(con, "logined client");
        return;
      }
      if username in credentials {
        close := FailMessage(con, REGISTER_FALLED, username + " is already registered with the system");
        return;
      }
      credentials := credentials[username := secret];
      if |peers| > 0 {
        pendingOrigin := pendingOrigin[username := con];
        pendingReplies := pendingReplies[con := knownIds];
        Broadcast(peers, LockRequestMsg(username, secret));
        close := false;
      } else {
        close := SuccessMessage(con, REGISTER_SUCCESS, "register success for" + username);
      }
    }

    method LockRequest(con: Conn, m: Msg) returns (close: bool)
      requires Valid()
      requires m.username.Some? && m.secret.Some?
      modifies this
      ensures Follows(old(sent), Engine.LockRequest(config, old(Abstract()), con, m), Returned(close))
      ensures Valid()
    {
      if con !in peers {
        close := InvalidMessage(con, "unau server");
        return;
      }
      var username, secret := m.username.value, m.secret.value;
      ghost var s0 := sent;
      Broadcast(peers - {con}, m);
      ghost var s1 := sent;
      if username in credentials {
        Broadcast(peers, LockDeniedMsg(username, secret));
        Chain(s0, s1, sent, [ToAll(peers - {con}, m)], [ToAll(peers, LockDeniedMsg(username, secret))]);
      } else {
        credentials := credentials[username := secret];
        Broadcast(peers, LockAllowedMsg(username, secret, config.serverId));
        Chain(s0, s1, sent, [ToAll(peers - {con}, m)],
              [ToAll(peers, LockAllowedMsg(username, secret, config.serverId))]);
      }
      close := false;
    }

    method LockDenied(con: Conn, m: Msg) returns (close: bool)
      requires Valid()
      requires m.username.Some? && m.secret.Some?
      modifies this
      ensures Follows(old(sent), Engine.LockDenied(old(Abstract()), con, m), Returned(close))
      ensures Valid()
    {
      if con !in peers {
        close := InvalidMessage(con, "unau server");
        return;
      }
      ghost var s0 := sent;
      Broadcast(peers - {con}, m);
      ghost var s1 := sent;
      var username := m.username.value;
      credentials := credentials - {username};
      if username in pendingOrigin {
        var origin := pendingOrigin[username];
        var _ := FailMessage(origin, REGISTER_FALLED, username + "is already registered with the system");
        Chain(s0, s1, sent, [ToAll(peers - {con}, m)],
              [To(origin, Reply(REGISTER_FALLED, username + "is already registered with the system"))]);
        pendingReplies := pendingReplies - {origin};
        pendingOrigin := pendingOrigin - {username};
        close := true;
        return;
      }
      close := false;
    }

    method LockAllowed(con: Conn, m: Msg) returns (exit: Exit)
      requires Valid()
      requires HasCommand(m, LOCK_ALLOWED) && m.username.Some? && m.secret.Some?
      modifies this
      ensures Follows(old(sent), Engine.LockAllowed(old(Abstract()), con, m), exit)
      ensures Valid()
    {
      if con !in peers {
        var close := InvalidMessage(con, "unau server");
        return Returned(close);
      }
      ghost var s0 := sent;
      Broadcast(peers - {con}, m);
      ghost var s1 := sent;
      if m.server.None? {
        return NullPointerThrown;
      }
      var username, id := m.username.value, m.server.value;
      if username in pendingOrigin {
        var origin := pendingOrigin[username];
        if origin !in pendingReplies {
          return NullPointerThrown;
        }
        ghost var awaited := pendingReplies;
        pendingReplies := pendingReplies[origin := pendingReplies[origin] - {id}];
        if pendingReplies[origin] == {} {
          assert pendingReplies - {origin} == awaited - {origin};
          var _ := SuccessMessage(origin, REGISTER_SUCCESS, "register success for" + username);
          Chain(s0, s1, sent, [ToAll(peers - {con}, m)],
                [To(origin, Reply(REGISTER_SUCCESS, "register success for" + username))]);
          pendingReplies := pendingReplies - {origin};
          pendingOrigin := pendingOrigin - {username};
          return Returned(false);
        }
      }
      return Returned(false);
    }

    // ----- the dispatcher -----

    /** `process`: handle one line from `con`; `None` stands for a line that did not parse. */
    method Process(con: Conn, input: Option<Msg>) returns (exit: Exit)
      requires Valid()
      modifies this
      ensures Follows(old(sent), Engine.Process(config, old(Abstract()), con, input), exit)
      ensures Valid()
    {
      if input.None? {
        return Returned(false);
      }
      var m := input.value;
      if m.command.None? {
        var close := InvalidMessage(con, "no command");
        return Returned(close);
      }
      var command := m.command.value;
      var close: bool;
      if command == INVALID_MESSAGE {
        close := true;
      } else if command == SERVER_ANNOUNCE {
        if m.id.None? {
          close := InvalidMessage(con, "no id");
        } else if m.load.None? {
          close := InvalidMessage(con, "no load");
        } else if m.hostname.None? {
          close := InvalidMessage(con, "no hostname");
        } else if m.port.None? {
          close := InvalidMessage(con, "no port");
        } else {
          close := ServerAnnounce(con, m);
        }
      } else if command == AUTHENTICATE {
        if m.secret.None? {
          close := InvalidMessage(con, "no secret");
        } else {
          close := Authenticate(con, m.secret.value);
        }
      } else if command == LOGOUT {
        close := LogOut();
      } else if command == ACTIVITY_BROADCAST {
        if m.activity.None? {
          close := InvalidMessage(con, "no activity");
        } else {
          close := ActivityBroadcast(con, m);
        }
      } else if command == LOGIN {
        if m.username.None? {
          close := InvalidMessage(con, "no username");
        } else if m.secret.None? {
          close := InvalidMessage(con, "no secret");
        } else {
          close := Login(con, m.username.value, m.secret.value);
        }
      } else if command == ACTIVITY_MESSAGE {
        if m.username.None? {
          close := InvalidMessage(con, "no username");
        } else if m.secret.None? {
          close := InvalidMessage(con, "no secret");
        } else if m.activity.None? {
          close := InvalidMessage(con, "no activity");
        } else {
          close := ActivityMessage(con, m.username.value, m.secret.value, m.activity.value);
        }
      } else if command == REGISTER {
        if m.username.None? {
          close := InvalidMessage(con, "no username");
        } else if m.secret.None? {
          close := InvalidMessage(con, "no secret");
        } else {
          close := Register(con, m.username.value, m.secret.value);
        }
      } else if command == LOCK_REQUEST {
        if m.username.None? {
          close := InvalidMessage(con, "no username");
        } else if m.secret.None? {
          close := InvalidMessage(con, "no secret");
        } else {
          close := LockRequest(con, m);
        }
      } else if command == LOCK_DENIED {
        if m.username.None? {
          close := InvalidMessage(con, "no username");
        } else if m.secret.None? {
          close := InvalidMessage(con, "no secret");
        } else {
          close := LockDenied(con, m);
        }
      } else if command == LOCK_ALLOWED {
        if m.username.None? {
          close := InvalidMessage(con, "no username");
        } else if m.secret.None? {
          close := InvalidMessage(con, "no secret");
        } else {
          exit := LockAllowed(con, m);
          return;
        }
      } else if command == AUTHENTICATION_FAIL {
        if m.info.None? {
          close := InvalidMessage(con, "no info");
        } else {
          close := true;
        }
      } else {
        close := InvalidMessage(con, "invalidMessage");
      }
      exit := Returned(close);
    }

    // ----- connection life cycle and the periodic announcement -----

    method ConnectionClosed(con: Conn)
      requires Valid()
      modifies this
      ensures Abstract() == Engine.ConnectionClosed(old(Abstract()), con) && sent == old(sent)
      ensures Valid()
    {
      if con in clients {
        clients := clients - {con};
        sessions := sessions - {con};
      } else {
        peers := peers - {con};
      }
    }

    method OutgoingConnection(con: Conn)
      requires Valid()
      modifies this
      ensures var r := Engine.OutgoingConnection(config, old(Abstract()), con);
              Abstract() == r.state && Extends(old(sent), sent, r.sends)
      ensures Valid()
    {
      Write(con, AuthenticateMsg(config));
      peers := peers + {con};
    }

    /** Called every few seconds; returns whether the server should shut down. */
    method DoActivity() returns (shutDown: bool)
      requires Valid()
      modifies this`sent
      ensures Valid() && !shutDown
      ensures var r := Engine.DoActivity(config, old(Abstract()));
              Abstract() == r.state && Extends(old(sent), sent, r.sends)
    {
      Broadcast(peers, AnnounceMsg(config, |clients|));
      shutDown := false;
    }
  }
}
