/** The chat server's objects as the Java code keeps them: one MyServer holding the user table and the
    list of live ClientProcessors, and per connection a ClientProcessor whose login, topic set and
    output stream its command handlers update in place. Every handler runs as one atomic step;
    each is proved to have exactly the effect the matching Protocol function describes. */
module Chat {
  import opened JavaText
  import UserTable
  import ClientList
  import opened Protocol

  /** MyServer: usersTable and clientsList. */
  class Server {
    var users: UserTable.Table
    var clients: seq<Session>

    /** Every connection is added once, as a new object, so the list never holds one twice. */
    ghost predicate Valid()
      reads this`clients
    {
      ClientList.Distinct(clients)
    }

    /** The sessions of the list as values, in list order. */
    ghost function Views(): (vs: seq<SessionView>)
      reads this`clients, clients
      ensures |vs| == |clients|
      ensures forall j :: 0 <= j < |clients| ==> vs[j] == clients[j].View()
    {
      var cs := clients;
      seq(|cs|, j requires 0 <= j < |cs| reads cs => cs[j].View())
    }

    ghost function State(): World
      reads this, clients
    {
      World(users, Views())
    }

    /** Where a listed session stands in the list. */
    ghost function IndexOf(c: Session): (k: nat)
      reads this`clients
      requires c in clients
      ensures k < |clients| && clients[k] == c
    {
      var k :| 0 <= k < |clients| && clients[k] == c; k
    }

    /** The MyServer constructor, then the accounts run() seeds before it starts accepting. */
    constructor ()
      ensures Valid() && users == UserTable.Seeded && clients == []
    {
      users := map[];
      clients := [];
      new;
      users := users["Fares" := "Fares1234"];
      users := users["Motaz" := "motz_789"];
      users := users["Mohammad" := "moh123"];
    }

    /** registerNewUser. */
    method RegisterNewUser(username: string, password: string) returns (ok: bool)
      modifies this`users
      ensures (users, ok) == UserTable.Register(old(users), username, password)
    {
      if username !in users {
        users := users[username := password];
        return true;
      }
      return false;
    }

    /** deregisterUser. */
    method DeregisterUser(username: string) returns (ok: bool)
      modifies this`users
      ensures (users, ok) == UserTable.Deregister(old(users), username)
    {
      ok := username in users;
      users := users - {username};
    }

    /** removeClientProcess. */
    method RemoveClientProcess(c: Session)
      requires Valid()
      modifies this`clients
      ensures Valid()
      ensures clients == ClientList.RemoveFirst(old(clients), c)
      ensures c !in clients && forall d :: d in clients ==> d in old(clients)
      ensures old(c in clients) ==> clients == old(clients[..IndexOf(c)] + clients[IndexOf(c) + 1..])
      ensures old(c in clients) ==> Views() == Without(old(Views()), old(IndexOf(c)))
    {
      if c in clients {
        ghost var listed, vs, k := clients, Views(), IndexOf(c);
        ClientList.RemoveFromDistinct(clients, k);
        ClientList.RemoveFirstKeeps(clients, c);
        clients := ClientList.RemoveFirst(clients, c);
        assert clients == listed[..k] + listed[k + 1..];
        forall j | 0 <= j < |clients| ensures Views()[j] == Without(vs, k)[j] {
          var j' := if j < k then j else j + 1;
          assert clients[j] == listed[j'] && Without(vs, k)[j] == vs[j'];
          assert vs[j'] == listed[j'].View();
        }
      }
    }

    /** The accept loop's body, without the socket: a new ClientProcessor joins the end of the list. */
    method Accept() returns (c: Session)
      requires Valid()
      modifies this`clients
      ensures Valid() && fresh(c)
      ensures clients == old(clients) + [c]
      ensures c.server == this && c.View() == Fresh
    {
      c := new Session(this);
      clients := clients + [c];
    }

    /** The fan-out loop every handler runs over getClientsList(): visit the clients in list order
        and call send(line) on each one the audience's test accepts. */
    method SendEach(line: string, a: Audience)
      requires Valid()
      modifies clients
      ensures Valid() && unchanged(this)
      ensures Views() == Deliver(old(Views()), line, a)
    {
      ghost var vs := Views();
      for i := 0 to |clients|
        invariant forall j :: 0 <= j < |clients| ==>
          clients[j].View() == if j < i then Deliver(vs, line, a)[j] else vs[j]
      {
        var client := clients[i];
        if Addressed(a, client.View()) {
          client.Send(line);
        }
      }
    }
  }

  /** ClientProcessor: login, topicSet and the output stream as the list of lines written to it. */
  class Session {
    const server: Server
    var login: Option<string>
    var topics: set<string>
    var outbox: seq<string>

    function View(): SessionView
      reads this
    {
      SessionView(login, topics, outbox)
    }

    constructor (server: Server)
      ensures this.server == server && View() == Fresh
    {
      this.server := server;
      login := None;
      topics := {};
      outbox := [];
    }

    function GetLogin(): Option<string>
      reads this
    {
      login
    }

    /** send: writes the line only when this session is logged in. */
    method Send(line: string)
      modifies this
      ensures View() == Protocol.Send(old(View()), line)
    {
      if login.Some? {
        outbox := outbox + [line];
      }
    }

    /** The frame every handler works in: this session is one of the server's live clients. */
    ghost predicate Listed()
      reads this, server
    {
      server.Valid() && this in server.clients
    }

    /** processJoin. */
    method ProcessJoin(tokens: seq<string>)
      requires Listed()
      modifies this
      ensures Listed() && server.users == old(server.users) && server.clients == old(server.clients)
      ensures server.Views() == Join(old(server.Views()), old(server.IndexOf(this)), tokens)
    {
      ghost var vs, k := server.Views(), server.IndexOf(this);
      if |tokens| > 1 {
        topics := topics + {tokens[1]};
      }
      assert server.Views() == Join(vs, k, tokens);
    }

    /** processLeave. */
    method ProcessLeave(tokens: seq<string>)
      requires Listed()
      modifies this
      ensures Listed() && server.users == old(server.users) && server.clients == old(server.clients)
      ensures server.Views() == Leave(old(server.Views()), old(server.IndexOf(this)), tokens)
    {
      ghost var vs, k := server.Views(), server.IndexOf(this);
      if |tokens| > 1 {
        topics := topics - {tokens[1]};
      }
      assert server.Views() == Leave(vs, k, tokens);
    }

    /** processWhoAmI. */
    method ProcessWhoAmI()
      requires Listed()
      modifies this
      ensures Listed() && server.users == old(server.users) && server.clients == old(server.clients)
      ensures server.Views() == WhoAmI(old(server.Views()), old(server.IndexOf(this)))
    {
      ghost var vs, k := server.Views(), server.IndexOf(this);
      if login.Some? {
        outbox := outbox + [login.value + EOL];
      } else {
        outbox := outbox + [GuestNotice];
      }
      assert server.Views() == WhoAmI(vs, k);
    }

    /** processRegister. */
    method ProcessRegister(tokens: seq<string>)
      requires Listed()
      modifies this, server`users
      ensures Listed() && server.clients == old(server.clients)
      ensures server.State() == Register(old(server.users), old(server.Views()), old(server.IndexOf(this)), tokens)
    {
      ghost var vs, k := server.Views(), server.IndexOf(this);
      if |tokens| == 3 {
        var flag := server.RegisterNewUser(tokens[1], tokens[2]);
        if flag {
          outbox := outbox + [OkRegister];
        } else {
          outbox := outbox + [ErrorRegisterTaken];
        }
      } else {
        outbox := outbox + [ErrorRegister];
      }
      assert server.Views() == Register(old(server.users), vs, k, tokens).sessions;
    }

    /** processMessage, on the line split into at most three parts. A target starting with '#'
        reaches the topic's members, any other target the clients whose name matches it ignoring case. */
    method ProcessMessage(tokens: seq<string>)
      requires Listed() && MessageSafe(login, tokens)
      modifies server.clients
      ensures Listed() && server.users == old(server.users) && server.clients == old(server.clients)
      ensures server.Views() == Message(old(server.Views()), old(server.IndexOf(this)), tokens)
    {
      ghost var vs, k := server.Views(), server.IndexOf(this);
      if login.Some? && |tokens| == 3 {
        var sender, sendTo, body := login.value, tokens[1], tokens[2];
        var isTopic := sendTo[0] == '#';
        if isTopic {
          server.SendEach(TopicLine(sendTo, sender, body), TopicMembers(sendTo));
        } else {
          server.SendEach(DirectLine(sender, body), NameMatches(sendTo));
        }
      } else {
        outbox := outbox + [LoginToMessage];
        assert server.Views() == Message(vs, k, tokens);
      }
    }

    /** processMessageBroadcast, on the line split into at most two parts. */
    method ProcessMessageBroadcast(tokens: seq<string>)
      requires Listed() && BroadcastSafe(login, tokens)
      modifies server.clients
      ensures Listed() && server.users == old(server.users) && server.clients == old(server.clients)
      ensures server.Views() == Broadcast(old(server.Views()), old(server.IndexOf(this)), tokens)
    {
      ghost var vs, k := server.Views(), server.IndexOf(this);
      if login.Some? {
        var msg := BroadcastLine(login.value, tokens[1]);
        server.SendEach(msg, NotNamed(login.value));
      } else {
        outbox := outbox + [LoginToMessage];
        assert server.Views() == Broadcast(vs, k, tokens);
      }
    }

    /** processLogin. After the password check it runs two loops over the list: the first tells
        this session who is online, the second tells everyone else that this session came online. */
    method ProcessLogin(tokens: seq<string>)
      requires Listed()
      modifies server.clients
      ensures Listed() && server.users == old(server.users) && server.clients == old(server.clients)
      ensures server.Views() == Login(old(server.users), old(server.Views()), old(server.IndexOf(this)), tokens)
    {
      ghost var vs, k := server.Views(), server.IndexOf(this);
      if |tokens| == 3 {
        var name, password := tokens[1], tokens[2];
        if name in server.users && server.users[name] == password {
          outbox := outbox + [OkLogin];
          login := Some(Trim(name));
          assert server.Views() == vs[k := Write(vs[k], OkLogin).(login := Some(Trim(name)))];
          TellWhoIsOnline(name);
          server.SendEach(OnlineLine(name), NotNamed(name));
        } else {
          outbox := outbox + [ErrorLogin];
        }
      }
      assert server.Views() == Login(server.users, vs, k, tokens);
    }

    /** processLogin's first loop: "online P" to this session for every logged-in client whose
        name P is not the name just typed. */
    method TellWhoIsOnline(name: string)
      requires Listed() && login.Some?
      modifies this
      ensures Listed() && server.users == old(server.users) && server.clients == old(server.clients)
      ensures server.Views() == old(server.Views())[old(server.IndexOf(this)) :=
        old(View()).(outbox := old(outbox) + OnlineLines(old(server.Views()), name))]
    {
      ghost var vs, k := server.Views(), server.IndexOf(this);
      var clients := server.clients;
      for i := 0 to |clients|
        invariant login == vs[k].login && topics == vs[k].topics
        invariant outbox == vs[k].outbox + OnlineLines(vs[..i], name)
      {
        var client := clients[i];
        assert vs[..i + 1][..i] == vs[..i];
        if client.GetLogin() != None && name != client.GetLogin().value {
          Send(OnlineLine(client.GetLogin().value));
        }
      }
      assert vs[..|clients|] == vs;
    }

    /** processQueryWhoIsConnected's loop: a listed line for every client logged in under another
        name, and the login-required notice for every guest, in list order. */
    method ListOnlineUsers()
      requires Listed() && WhoSafe(server.Views(), server.IndexOf(this))
      modifies this
      ensures Listed() && server.users == old(server.users) && server.clients == old(server.clients)
      ensures server.Views() == old(server.Views())[old(server.IndexOf(this)) :=
        old(View()).(outbox := old(outbox) + WhoLines(old(server.Views()), login))]
    {
      ghost var vs, k := server.Views(), server.IndexOf(this);
      var clients := server.clients;
      for i := 0 to |clients|
        invariant login == vs[k].login && topics == vs[k].topics
        invariant outbox == vs[k].outbox + WhoLines(vs[..i], login)
      {
        var client := clients[i];
        assert vs[..i + 1][..i] == vs[..i];
        if client.GetLogin() != None {
          if Some(login.value) != client.GetLogin() {
            Send(ListedLine(client.GetLogin().value));
          }
        } else {
          outbox := outbox + [LoginToList];
        }
      }
      assert vs[..|clients|] == vs;
    }

    /** processQueryWhoIsConnected. */
    method ProcessQueryWhoIsConnected()
      requires Listed() && WhoSafe(server.Views(), server.IndexOf(this))
      modifies this
      ensures Listed() && server.users == old(server.users) && server.clients == old(server.clients)
      ensures server.Views() == WhoIsOnline(old(server.Views()), old(server.IndexOf(this)))
    {
      ghost var vs, k := server.Views(), server.IndexOf(this);
      Send(ListHeader);
      ghost var vs1 := server.Views();
      ghost var header := if login.Some? then [ListHeader] else [];
      assert vs1 == vs[k := Protocol.Send(vs[k], ListHeader)];
      assert Protocol.Send(vs[k], ListHeader) == vs[k].(outbox := vs[k].outbox + header);
      WhoLinesReadLogins(vs1, vs, login);
      ListOnlineUsers();
      assert server.Views() == vs1[k := vs1[k].(outbox := vs1[k].outbox + WhoLines(vs, login))];
    }

    /** processLogoff (also reached by quit): leave the list, then tell the remaining clients. */
    method ProcessLogoff()
      requires Listed() && LogoffSafe(server.Views(), server.IndexOf(this))
      modifies server`clients, server.clients
      ensures server.Valid() && this !in server.clients && server.users == old(server.users)
      ensures server.clients == ClientList.RemoveFirst(old(server.clients), this)
      ensures server.Views() == Logoff(old(server.Views()), old(server.IndexOf(this)))
      ensures View() == old(View())
    {
      ghost var vs, k := server.Views(), server.IndexOf(this);
      server.RemoveClientProcess(this);
      assert server.Views() == Without(vs, k);
      // A guest gets this far only when it was alone, so the loop has nobody to visit.
      if login.Some? {
        server.SendEach(OfflineLine(login.value), NotNamed(login.value));
      }
    }

    /** processDeregister: returns whether the read loop is to stop. */
    method ProcessDeregister() returns (flag: bool)
      requires Listed()
      modifies server`clients, server`users, server.clients
      ensures server.Valid() && (flag <==> this !in server.clients)
      ensures server.clients == if flag then ClientList.RemoveFirst(old(server.clients), this) else old(server.clients)
      ensures var st := Deregister(old(server.State()), old(server.IndexOf(this)));
        server.State() == st.world && View() == st.self && flag == st.breakLoop
    {
      if login.Some? {
        LeaveAndDeregister();
        return true;
      } else {
        ghost var vs, k := server.Views(), server.IndexOf(this);
        outbox := outbox + [LoginToDeregister];
        assert server.Views() == vs[k := Write(vs[k], LoginToDeregister)];
        return false;
      }
    }

    /** processDeregister for a logged-in session: leave the list, then finish as below. */
    method LeaveAndDeregister()
      requires Listed() && login.Some?
      modifies server`clients, server`users, server.clients
      ensures server.Valid() && this !in server.clients
      ensures server.clients == ClientList.RemoveFirst(old(server.clients), this)
      ensures var st := Deregister(old(server.State()), old(server.IndexOf(this)));
        server.State() == st.world && View() == st.self
    {
      ghost var w, k, me := server.State(), server.IndexOf(this), View();
      assert w.sessions[k] == me;
      server.RemoveClientProcess(this);
      ghost var rest := server.Views();
      assert rest == Without(w.sessions, k);
      var user := login.value;
      FinishDeregister(user);
      DeregisterAsUser(w, k, user);
    }

    /** The rest of processDeregister once this session has left the list: remove the name from the
        table, then "ok deregister" and the broadcast to the remaining clients when that removal
        succeeded, "error deregister" otherwise. */
    method FinishDeregister(user: string)
      requires server.Valid() && this !in server.clients
      modifies this, server`users, server.clients
      ensures server.Valid() && this !in server.clients && server.clients == old(server.clients)
      ensures var (users, removed) := UserTable.Deregister(old(server.users), user);
        && server.users == users
        && View() == Write(old(View()), if removed then OkDeregister(user) else ErrorDeregister(user))
        && server.Views() ==
             if removed then Deliver(old(server.Views()), DeregisteredLine(user), Everyone) else old(server.Views())
    {
      var removed := server.DeregisterUser(user);
      if removed {
        outbox := outbox + [OkDeregister(user)];
        server.SendEach(DeregisteredLine(user), Everyone);
      } else {
        outbox := outbox + [ErrorDeregister(user)];
      }
    }

    /** The body of processClientSocket's read loop: a blank line is skipped, otherwise the
        lower-cased first word picks the handler. The result is breakLoop: the loop stops exactly
        when this session has left the list. */
    method ProcessLine(line: Line) returns (breakLoop: bool)
      requires Listed() && Safe(server.State(), server.IndexOf(this), line)
      modifies server`users, server`clients, server.clients
      ensures server.Valid() && (breakLoop <==> this !in server.clients)
      ensures server.clients ==
        if breakLoop then ClientList.RemoveFirst(old(server.clients), this) else old(server.clients)
      ensures var st := Dispatch(old(server.State()), old(server.IndexOf(this)), line);
        server.State() == st.world && View() == st.self && breakLoop == st.breakLoop
    {
      breakLoop := false;
      if line.words != [] {
        var cmd := ToLowerCase(line.words[0]);
        if cmd == "quit" || cmd == "logoff" {
          ProcessLogoff();
          breakLoop := true;
        } else if cmd == "login" {
          ProcessLogin(line.words);
        } else if cmd == "msg" {
          ProcessMessage(line.msgParts);
        } else if cmd == "msg-broadcast" {
          ProcessMessageBroadcast(line.broadcastParts);
        } else if cmd == "join" {
          ProcessJoin(line.words);
        } else if cmd == "leave" {
          ProcessLeave(line.words);
        } else if cmd == "who-is-online" || cmd == "who-is-connected" {
          ProcessQueryWhoIsConnected();
        } else if cmd == "whoami" {
          ProcessWhoAmI();
        } else if cmd == "register" {
          ProcessRegister(line.words);
        } else if cmd == "deregister" {
          breakLoop := ProcessDeregister();
        } else {
          ghost var vs, k := server.Views(), server.IndexOf(this);
          outbox := outbox + [UnknownLine(cmd)];
          assert server.Views() == vs[k := Write(vs[k], UnknownLine(cmd))];
        }
      }
    }
  }
}
