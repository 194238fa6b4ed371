/** The chat server's command semantics as values: what one command line, run by the session at
    index k of the client list, does to the user table, the list and every session's outbox.
    Chat.Session's methods are proved to do exactly this to the objects they update. */
module Protocol {
  import opened JavaText
  import UserTable

  /** Every line the server writes ends in LF followed by CR. */
  const EOL := "\n\r"

  const OkLogin := "ok login" + EOL
  const ErrorLogin := "error login" + EOL
  const OkRegister := "ok register" + EOL
  const ErrorRegisterTaken := "error register. Username is already taken" + EOL
  const ErrorRegister := "error register" + EOL
  const LoginToMessage := "You have to login in order to be allowed to send messages" + EOL
  const LoginToDeregister := "error derigister. You must be logged in to be able to derigister" + EOL
  const ListHeader := "List of Online Users:\n\r-------------------------\n\r"
  /** Written as the Java code has it: the newline escape lost its backslash. */
  const LoginToList := "You have to login " + "in order to see " + "the list of online users" + "n\r"
  const GuestNotice := "You are a Guest. Login to have access on services suchs as sending and receiving messages" + EOL

  function OnlineLine(user: string): string { "online " + user + EOL }
  function OfflineLine(user: string): string { "offline " + user + EOL }
  function DeregisteredLine(user: string): string { "deregistered " + user + EOL }
  function OkDeregister(user: string): string { "ok deregister: " + user + EOL }
  function ErrorDeregister(user: string): string { "error deregister: " + user + EOL }
  function UnknownLine(cmd: string): string { "unknown " + cmd + EOL }
  function TopicLine(topic: string, sender: string, body: string): string { "msg " + topic + ":" + sender + " " + body + EOL }
  function DirectLine(sender: string, body: string): string { sender + ": " + body + EOL }
  function BroadcastLine(sender: string, body: string): string { "msg " + sender + " " + body + EOL }
  function ListedLine(user: string): string { "    - " + user + EOL }

  /** One ClientProcessor: its login (None for a guest), its topicSet and everything written to its
      output stream so far. */
  datatype SessionView = SessionView(login: Option<string>, topics: set<string>, outbox: seq<string>)

  /** A session as the server creates it on accepting a connection. */
  const Fresh := SessionView(None, {}, [])

  /** The user table and the client list, in list order. */
  datatype World = World(users: UserTable.Table, sessions: seq<SessionView>)

  /** The effect of one input line: the new world, the final state of the session that ran it (which
      may have left the list) and whether its read loop stops. */
  datatype Step = Step(world: World, self: SessionView, breakLoop: bool)

  /** A direct outputStream.write: lands whether or not the session is logged in. */
  function Write(s: SessionView, line: string): SessionView
  {
    s.(outbox := s.outbox + [line])
  }

  /** ClientProcessor.send: only a logged-in session's stream is written. */
  function Send(s: SessionView, line: string): (r: SessionView)
    ensures r.login == s.login && r.topics == s.topics
    ensures s.login.None? ==> r == s
    ensures s.login.Some? ==> r.outbox == s.outbox + [line]
  {
    if s.login.Some? then Write(s, line) else s
  }

  /** The condition each fan-out loop tests before calling send on a client. */
  datatype Audience =
    | NotNamed(name: string)      // !name.equals(client.getLogin())
    | TopicMembers(topic: string) // client.getLogin() != null && client.isMemberOfTopic(topic)
    | NameMatches(target: string) // client.getLogin() != null && client.getLogin().equalsIgnoreCase(target)
    | Everyone                    // no test

  predicate Addressed(a: Audience, s: SessionView)
  {
    match a
    case NotNamed(name) => s.login != Some(name)
    case TopicMembers(topic) => s.login.Some? && topic in s.topics
    case NameMatches(target) => s.login.Some? && EqualsIgnoreCase(s.login.value, target)
    case Everyone => true
  }

  /** One pass over the list that calls send(line) on every addressed client. */
  function Deliver(vs: seq<SessionView>, line: string, a: Audience): (r: seq<SessionView>)
    ensures |r| == |vs|
    ensures forall j :: 0 <= j < |vs| ==> r[j].login == vs[j].login && r[j].topics == vs[j].topics
    ensures forall j :: 0 <= j < |vs| ==>
      r[j].outbox == vs[j].outbox + (if vs[j].login.Some? && Addressed(a, vs[j]) then [line] else [])
  {
    seq(|vs|, j requires 0 <= j < |vs| => if Addressed(a, vs[j]) then Send(vs[j], line) else vs[j])
  }

  /** The list without the entry at index k, the others in their old order. */
  function Without(vs: seq<SessionView>, k: nat): (r: seq<SessionView>)
    requires k < |vs|
    ensures |r| == |vs| - 1
    ensures forall j :: 0 <= j < |r| ==> r[j] == vs[if j < k then j else j + 1]
  {
    vs[..k] + vs[k + 1..]
  }

  // ---------------------------------------------------------------- login

  /** The "online P" lines processLogin's first loop sends to the new session: one per logged-in
      client of the list whose name P differs from the name typed, in list order. */
  function OnlineLines(vs: seq<SessionView>, name: string): (r: seq<string>)
    ensures |r| <= |vs|
  {
    if vs == [] then []
    else
      var last := vs[|vs| - 1];
      OnlineLines(vs[..|vs| - 1], name)
        + (if last.login.Some? && last.login.value != name then [OnlineLine(last.login.value)] else [])
  }

  /** processLogin. The name stored is tokens[1] trimmed; the comparisons use tokens[1] as typed.
      Only the sender's login changes, no topic set changes, and streams are only appended to. */
  function Login(users: UserTable.Table, vs: seq<SessionView>, k: nat, tokens: seq<string>): (r: seq<SessionView>)
    requires k < |vs|
    ensures |r| == |vs|
    ensures forall j :: 0 <= j < |vs| ==> r[j].topics == vs[j].topics && vs[j].outbox <= r[j].outbox
    ensures forall j :: 0 <= j < |vs| && j != k ==> r[j].login == vs[j].login
    ensures r[k].login == if |tokens| == 3 && UserTable.Verify(users, tokens[1], tokens[2])
                          then Some(Trim(tokens[1])) else vs[k].login
  {
    if |tokens| != 3 then vs
    else if UserTable.Verify(users, tokens[1], tokens[2]) then
      var name := tokens[1];
      var me := Write(vs[k], OkLogin).(login := Some(Trim(name)));
      var vs1 := vs[k := me];
      var vs2 := vs1[k := me.(outbox := me.outbox + OnlineLines(vs1, name))];
      Deliver(vs2, OnlineLine(name), NotNamed(name))
    else
      vs[k := Write(vs[k], ErrorLogin)]
  }

  // ---------------------------------------------------------------- register

  /** processRegister: three tokens go to MyServer.registerNewUser, anything else is refused.
      No account is ever overwritten, and the sender gets exactly one reply. */
  function Register(users: UserTable.Table, vs: seq<SessionView>, k: nat, tokens: seq<string>): (r: World)
    requires k < |vs|
    ensures |r.sessions| == |vs| && forall j :: 0 <= j < |vs| && j != k ==> r.sessions[j] == vs[j]
    ensures r.sessions[k].login == vs[k].login && r.sessions[k].topics == vs[k].topics
    ensures vs[k].outbox <= r.sessions[k].outbox && |r.sessions[k].outbox| == |vs[k].outbox| + 1
    ensures forall u :: u in users ==> u in r.users && r.users[u] == users[u]
  {
    if |tokens| == 3 then
      var (users', ok) := UserTable.Register(users, tokens[1], tokens[2]);
      World(users', vs[k := Write(vs[k], if ok then OkRegister else ErrorRegisterTaken)])
    else
      World(users, vs[k := Write(vs[k], ErrorRegister)])
  }

  // ---------------------------------------------------------------- topics

  /** processJoin: the second token joins this session's topic set; nothing is written. */
  function Join(vs: seq<SessionView>, k: nat, tokens: seq<string>): (r: seq<SessionView>)
    requires k < |vs|
    ensures |r| == |vs| && forall j :: 0 <= j < |vs| && j != k ==> r[j] == vs[j]
    ensures r[k].login == vs[k].login && r[k].outbox == vs[k].outbox
    ensures |tokens| > 1 ==> tokens[1] in r[k].topics
  {
    if |tokens| > 1 then vs[k := vs[k].(topics := vs[k].topics + {tokens[1]})] else vs
  }

  /** processLeave: the second token leaves this session's topic set; nothing is written. */
  function Leave(vs: seq<SessionView>, k: nat, tokens: seq<string>): (r: seq<SessionView>)
    requires k < |vs|
    ensures |r| == |vs| && forall j :: 0 <= j < |vs| && j != k ==> r[j] == vs[j]
    ensures r[k].login == vs[k].login && r[k].outbox == vs[k].outbox
    ensures |tokens| > 1 ==> tokens[1] !in r[k].topics
  {
    if |tokens| > 1 then vs[k := vs[k].(topics := vs[k].topics - {tokens[1]})] else vs
  }

  // ---------------------------------------------------------------- messages

  /** The target of a msg is read with charAt(0), which an empty target would not survive. */
  predicate MessageSafe(me: Option<string>, parts: seq<string>)
  {
    me.Some? && |parts| == 3 ==> parts[1] != []
  }

  /** processMessage, on the line split into at most three parts: msg, target, body. No login or
      topic set changes, and each stream receives at most one line. */
  function Message(vs: seq<SessionView>, k: nat, parts: seq<string>): (r: seq<SessionView>)
    requires k < |vs| && MessageSafe(vs[k].login, parts)
    ensures |r| == |vs|
    ensures forall j :: 0 <= j < |vs| ==> r[j].login == vs[j].login && r[j].topics == vs[j].topics
    ensures forall j :: 0 <= j < |vs| ==> vs[j].outbox <= r[j].outbox && |r[j].outbox| <= |vs[j].outbox| + 1
  {
    if vs[k].login.Some? && |parts| == 3 then
      var sender, target, body := vs[k].login.value, parts[1], parts[2];
      if target[0] == '#' then Deliver(vs, TopicLine(target, sender, body), TopicMembers(target))
      else Deliver(vs, DirectLine(sender, body), NameMatches(target))
    else
      vs[k := Write(vs[k], LoginToMessage)]
  }

  /** A logged-in sender's msg-broadcast reads tokens[1], which must exist. */
  predicate BroadcastSafe(me: Option<string>, parts: seq<string>)
  {
    me.Some? ==> |parts| >= 2
  }

  /** processMessageBroadcast, on the line split into at most two parts: msg-broadcast, body.
      Its loop tests getLogin() != null before !login.equals(getLogin()); as send writes only to
      logged-in sessions anyway, the audience is NotNamed(sender). */
  function Broadcast(vs: seq<SessionView>, k: nat, parts: seq<string>): (r: seq<SessionView>)
    requires k < |vs| && BroadcastSafe(vs[k].login, parts)
    ensures |r| == |vs|
    ensures forall j :: 0 <= j < |vs| ==> r[j].login == vs[j].login && r[j].topics == vs[j].topics
    ensures forall j :: 0 <= j < |vs| ==> vs[j].outbox <= r[j].outbox && |r[j].outbox| <= |vs[j].outbox| + 1
    ensures vs[k].login.Some? ==> r[k] == vs[k]
  {
    match vs[k].login
    case Some(sender) => Deliver(vs, BroadcastLine(sender, parts[1]), NotNamed(sender))
    case None => vs[k := Write(vs[k], LoginToMessage)]
  }

  // ---------------------------------------------------------------- leaving

  /** processLogoff dereferences login for every client left in the list. */
  predicate LogoffSafe(vs: seq<SessionView>, k: nat)
    requires k < |vs|
  {
    vs[k].login.Some? || |vs| == 1
  }

  /** processLogoff: the session leaves the list, then every remaining client not logged in under
      the same name is told it went offline. Nothing is written to the leaving session. */
  function Logoff(vs: seq<SessionView>, k: nat): (r: seq<SessionView>)
    requires k < |vs| && LogoffSafe(vs, k)
    ensures |r| == |vs| - 1
    ensures forall j :: 0 <= j < |r| ==>
      var o := vs[if j < k then j else j + 1];
      r[j].login == o.login && r[j].topics == o.topics && o.outbox <= r[j].outbox && |r[j].outbox| <= |o.outbox| + 1
  {
    match vs[k].login
    case Some(user) => Deliver(Without(vs, k), OfflineLine(user), NotNamed(user))
    case None => Without(vs, k)
  }

  /** processDeregister. A guest is refused and stays. A logged-in session leaves the list first;
      then its name is removed from the table, and only if that removal succeeded do the remaining
      clients hear of it. Either way the read loop stops. */
  function Deregister(w: World, k: nat): (r: Step)
    requires k < |w.sessions|
    ensures r.breakLoop <==> w.sessions[k].login.Some?
    ensures r.breakLoop ==> |r.world.sessions| == |w.sessions| - 1 && w.sessions[k].login.value !in r.world.users
    ensures !r.breakLoop ==> r.world.users == w.users && r.world.sessions == w.sessions[k := r.self]
    ensures r.self.login == w.sessions[k].login && r.self.topics == w.sessions[k].topics
    ensures w.sessions[k].outbox <= r.self.outbox && |r.self.outbox| == |w.sessions[k].outbox| + 1
  {
    var vs := w.sessions;
    match vs[k].login
    case None =>
      var me := Write(vs[k], LoginToDeregister);
      Step(World(w.users, vs[k := me]), me, false)
    case Some(user) =>
      var (users', removed) := UserTable.Deregister(w.users, user);
      if removed then
        Step(World(users', Deliver(Without(vs, k), DeregisteredLine(user), Everyone)), Write(vs[k], OkDeregister(user)), true)
      else
        Step(World(w.users, Without(vs, k)), Write(vs[k], ErrorDeregister(user)), true)
  }

  /** The logged-in case of deregister as one step: table without the name, list without the
      session (told, if the removal succeeded), the sender's report, and the loop stops. */
  lemma DeregisterAsUser(w: World, k: nat, user: string)
    requires k < |w.sessions| && w.sessions[k].login == Some(user)
    ensures var removed := user in w.users;
      Deregister(w, k) == Step(
        World(w.users - {user}, if removed then Deliver(Without(w.sessions, k), DeregisteredLine(user), Everyone)
                                else Without(w.sessions, k)),
        Write(w.sessions[k], if removed then OkDeregister(user) else ErrorDeregister(user)),
        true)
  {
  }

  // ---------------------------------------------------------------- queries

  /** processQueryWhoIsConnected dereferences login as soon as it meets a logged-in client. */
  predicate WhoSafe(vs: seq<SessionView>, k: nat)
    requires k < |vs|
  {
    vs[k].login.Some? || forall j :: 0 <= j < |vs| ==> vs[j].login.None?
  }

  /** The lines processQueryWhoIsConnected's loop writes for the clients vs, asked by a session
      logged in as me: a listed line (through send) for each logged-in client under another name,
      and a login-required notice (written directly) for each guest. */
  function WhoLines(vs: seq<SessionView>, me: Option<string>): (r: seq<string>)
    ensures |r| <= |vs|
    ensures me.None? ==> forall i :: 0 <= i < |r| ==> r[i] == LoginToList
  {
    if vs == [] then []
    else
      var last := vs[|vs| - 1];
      WhoLines(vs[..|vs| - 1], me)
        + match last.login
          case Some(user) => if me.Some? && last.login != me then [ListedLine(user)] else []
          case None => [LoginToList]
  }

  /** The listing depends on the clients' logins only, not on what was written to them. */
  lemma {:induction false} WhoLinesReadLogins(a: seq<SessionView>, b: seq<SessionView>, me: Option<string>)
    requires |a| == |b| && forall j :: 0 <= j < |a| ==> a[j].login == b[j].login
    ensures WhoLines(a, me) == WhoLines(b, me)
    decreases |a|
  {
    if a != [] {
      WhoLinesReadLogins(a[..|a| - 1], b[..|b| - 1], me);
    }
  }

  /** processQueryWhoIsConnected: the header (through send), then one line per client. */
  function WhoIsOnline(vs: seq<SessionView>, k: nat): (r: seq<SessionView>)
    requires k < |vs| && WhoSafe(vs, k)
    ensures |r| == |vs| && forall j :: 0 <= j < |vs| && j != k ==> r[j] == vs[j]
    ensures r[k].login == vs[k].login && r[k].topics == vs[k].topics && vs[k].outbox <= r[k].outbox
  {
    var me := vs[k].login;
    vs[k := vs[k].(outbox := vs[k].outbox + (if me.Some? then [ListHeader] else []) + WhoLines(vs, me))]
  }

  /** processWhoAmI. */
  function WhoAmI(vs: seq<SessionView>, k: nat): (r: seq<SessionView>)
    requires k < |vs|
    ensures |r| == |vs| && forall j :: 0 <= j < |vs| && j != k ==> r[j] == vs[j]
    ensures r[k].login == vs[k].login && r[k].topics == vs[k].topics
    ensures vs[k].outbox <= r[k].outbox && |r[k].outbox| == |vs[k].outbox| + 1
  {
    match vs[k].login
    case Some(user) => vs[k := Write(vs[k], user + EOL)]
    case None => vs[k := Write(vs[k], GuestNotice)]
  }

  // ---------------------------------------------------------------- dispatch

  /** One input line as the read loop sees it: the whitespace split, and the splits on single spaces
      into at most three and at most two parts that msg and msg-broadcast use. */
  datatype Line = Line(words: seq<string>, msgParts: seq<string>, broadcastParts: seq<string>)

  /** The command of a non-blank line: its first word lower-cased. */
  function Command(line: Line): string
    requires line.words != []
  {
    ToLowerCase(line.words[0])
  }

  /** The line does not drive processClientSocket into one of the Java code's runtime exceptions. */
  predicate Safe(w: World, k: nat, line: Line)
    requires k < |w.sessions|
  {
    line.words != [] ==>
      var cmd, me := Command(line), w.sessions[k].login;
      && ((cmd == "quit" || cmd == "logoff") ==> LogoffSafe(w.sessions, k))
      && (cmd == "msg" ==> MessageSafe(me, line.msgParts))
      && (cmd == "msg-broadcast" ==> BroadcastSafe(me, line.broadcastParts))
      && ((cmd == "who-is-online" || cmd == "who-is-connected") ==> WhoSafe(w.sessions, k))
  }

  /** A command after which the session is still in the list at index k and the loop goes on. */
  function Stay(users: UserTable.Table, vs: seq<SessionView>, k: nat): Step
    requires k < |vs|
  {
    Step(World(users, vs), vs[k], false)
  }

  /** The body of processClientSocket's read loop for one line. */
  function Dispatch(w: World, k: nat, line: Line): (r: Step)
    requires k < |w.sessions| && Safe(w, k, line)
    ensures r.breakLoop <==> (line.words != [] &&
      (Command(line) in {"quit", "logoff"} || (Command(line) == "deregister" && w.sessions[k].login.Some?)))
    ensures r.breakLoop ==> |r.world.sessions| == |w.sessions| - 1
    ensures !r.breakLoop ==> |r.world.sessions| == |w.sessions| && r.self == r.world.sessions[k]
    ensures line.words == [] || Command(line) !in {"register", "deregister"} ==> r.world.users == w.users
  {
    var vs, users := w.sessions, w.users;
    if line.words == [] then Stay(users, vs, k)
    else
      var cmd := Command(line);
      if cmd == "quit" || cmd == "logoff" then Step(World(users, Logoff(vs, k)), vs[k], true)
      else if cmd == "login" then Stay(users, Login(users, vs, k, line.words), k)
      else if cmd == "msg" then Stay(users, Message(vs, k, line.msgParts), k)
      else if cmd == "msg-broadcast" then Stay(users, Broadcast(vs, k, line.broadcastParts), k)
      else if cmd == "join" then Stay(users, Join(vs, k, line.words), k)
      else if cmd == "leave" then Stay(users, Leave(vs, k, line.words), k)
      else if cmd == "who-is-online" || cmd == "who-is-connected" then Stay(users, WhoIsOnline(vs, k), k)
      else if cmd == "whoami" then Stay(users, WhoAmI(vs, k), k)
      else if cmd == "register" then
        var w' := Register(users, vs, k, line.words);
        Step(w', w'.sessions[k], false)
      else if cmd == "deregister" then Deregister(w, k)
      else Stay(users, vs[k := Write(vs[k], UnknownLine(cmd))], k)
  }
}
