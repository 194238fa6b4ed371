/** What the chat protocol promises, proved about the Protocol functions: who receives which line
    after each command, and what is left untouched. */
module ProtocolFacts {
  import opened JavaText
  import UserTable
  import opened Protocol

  // ---------------------------------------------------------------- the lines themselves

  /** An "online P" line names exactly one user. */
  lemma OnlineLineInjective(p: string, q: string)
    ensures OnlineLine(p) == OnlineLine(q) ==> p == q
  {
    if OnlineLine(p) == OnlineLine(q) {
      assert p == OnlineLine(p)[7..7 + |p|];
      assert q == OnlineLine(q)[7..7 + |q|];
    }
  }

  /** A listed line names exactly one user, and is never the login-required notice. */
  lemma ListedLineInjective(p: string, q: string)
    ensures ListedLine(p) == ListedLine(q) ==> p == q
    ensures ListedLine(p) != LoginToList
  {
    assert ListedLine(p)[0] == ' ';
    assert LoginToList[0] == 'Y';
    if ListedLine(p) == ListedLine(q) {
      assert p == ListedLine(p)[6..6 + |p|];
      assert q == ListedLine(q)[6..6 + |q|];
    }
  }

  // ---------------------------------------------------------------- dispatch

  /** A line with no words is skipped: nothing changes and the loop goes on. */
  lemma BlankLineSkipped(w: World, k: nat, line: Line)
    requires k < |w.sessions| && line.words == []
    ensures Dispatch(w, k, line) == Step(w, w.sessions[k], false)
  {
  }

  /** A command the switch does not know appends exactly "unknown <cmd>" to the sender and changes
      nothing else. */
  lemma UnknownCommandAnswered(w: World, k: nat, line: Line)
    requires k < |w.sessions| && line.words != []
    requires Command(line) !in {"quit", "logoff", "login", "msg", "msg-broadcast", "join", "leave",
                                "who-is-online", "who-is-connected", "whoami", "register", "deregister"}
    ensures var st := Dispatch(w, k, line);
      && st.world.users == w.users && !st.breakLoop
      && |st.world.sessions| == |w.sessions|
      && st.self == st.world.sessions[k]
      && st.self.outbox == w.sessions[k].outbox + ["unknown " + Command(line) + "\n\r"]
      && st.self.login == w.sessions[k].login && st.self.topics == w.sessions[k].topics
      && forall j :: 0 <= j < |w.sessions| && j != k ==> st.world.sessions[j] == w.sessions[j]
  {
  }

  /** login, join, leave and register read only the words after the command. */
  lemma TokensPastCommand(users: UserTable.Table, vs: seq<SessionView>, k: nat, a: seq<string>, b: seq<string>)
    requires k < |vs| && |a| == |b| && |a| > 0 && a[1..] == b[1..]
    ensures Login(users, vs, k, a) == Login(users, vs, k, b)
    ensures Register(users, vs, k, a) == Register(users, vs, k, b)
    ensures Join(vs, k, a) == Join(vs, k, b) && Leave(vs, k, a) == Leave(vs, k, b)
  {
  }

  /** The command word is matched ignoring case: two lines that differ only in the case of their
      first word have the same effect. */
  lemma CommandIgnoresCase(w: World, k: nat, line: Line, word: string)
    requires k < |w.sessions| && line.words != [] && EqualsIgnoreCase(word, line.words[0])
    requires Safe(w, k, line)
    ensures Safe(w, k, line.(words := [word] + line.words[1..]))
    ensures Dispatch(w, k, line.(words := [word] + line.words[1..])) == Dispatch(w, k, line)
  {
    var line' := line.(words := [word] + line.words[1..]);
    assert Command(line') == Command(line);
    assert line'.words[1..] == line.words[1..];
    TokensPastCommand(w.users, w.sessions, k, line'.words, line.words);
  }

  /** quit and logoff are one command, and so are who-is-online and who-is-connected. */
  lemma CommandAliases(w: World, k: nat, a: Line, b: Line)
    requires k < |w.sessions| && a.words != [] && b.words != [] && Safe(w, k, a)
    requires (Command(a) in {"quit", "logoff"} && Command(b) in {"quit", "logoff"})
          || (Command(a) in {"who-is-online", "who-is-connected"} && Command(b) in {"who-is-online", "who-is-connected"})
    ensures Safe(w, k, b) && Dispatch(w, k, b) == Dispatch(w, k, a)
  {
  }

  // ---------------------------------------------------------------- login

  lemma {:induction false} OnlineLinesAppend(a: seq<SessionView>, b: seq<SessionView>, name: string)
    ensures OnlineLines(a + b, name) == OnlineLines(a, name) + OnlineLines(b, name)
    decreases |b|
  {
    if b == [] {
      assert a + b == a;
    } else {
      var b' := b[..|b| - 1];
      assert (a + b)[..|a + b| - 1] == a + b';
      OnlineLinesAppend(a, b', name);
    }
  }

  /** The new session is told "online P" exactly for the users P logged in on some client of the
      list under a name other than the one typed. */
  lemma {:induction false} OnlineLinesListPeers(vs: seq<SessionView>, name: string, p: string)
    ensures OnlineLine(p) in OnlineLines(vs, name) <==>
      exists j :: 0 <= j < |vs| && vs[j].login == Some(p) && p != name
    decreases |vs|
  {
    if vs != [] {
      var init, last := vs[..|vs| - 1], vs[|vs| - 1];
      OnlineLinesListPeers(init, name, p);
      if last.login.Some? {
        OnlineLineInjective(p, last.login.value);
      }
      if exists j :: 0 <= j < |vs| && vs[j].login == Some(p) && p != name {
        var j :| 0 <= j < |vs| && vs[j].login == Some(p) && p != name;
        if j < |vs| - 1 {
          assert init[j] == vs[j];
        }
      }
    }
  }

  /** With a number of tokens other than three, login does nothing at all. */
  lemma LoginNeedsThreeTokens(users: UserTable.Table, vs: seq<SessionView>, k: nat, tokens: seq<string>)
    requires k < |vs| && |tokens| != 3
    ensures Login(users, vs, k, tokens) == vs
  {
  }

  /** With three tokens the first line the sender gets is "ok login" exactly when the table maps
      the name to the password; on success it is logged in under the trimmed name, on failure it
      gets "error login" and nothing else changes. */
  lemma LoginOutcome(users: UserTable.Table, vs: seq<SessionView>, k: nat, tokens: seq<string>)
    requires k < |vs| && |tokens| == 3
    ensures var r := Login(users, vs, k, tokens);
      && |r| == |vs| && |r[k].outbox| > |vs[k].outbox|
      && (r[k].outbox[|vs[k].outbox|] == OkLogin <==> UserTable.Verify(users, tokens[1], tokens[2]))
      && (UserTable.Verify(users, tokens[1], tokens[2]) ==> r[k].login == Some(Trim(tokens[1])))
      && (!UserTable.Verify(users, tokens[1], tokens[2]) ==> r == vs[k := Write(vs[k], ErrorLogin)])
  {
  }

  /** After a successful login every other session logged in under a name other than the one typed
      receives exactly one "online <name>"; guests and same-name sessions receive nothing. */
  lemma LoginNotifiesOthers(users: UserTable.Table, vs: seq<SessionView>, k: nat, tokens: seq<string>, j: nat)
    requires k < |vs| && j < |vs| && j != k
    requires |tokens| == 3 && UserTable.Verify(users, tokens[1], tokens[2])
    ensures Login(users, vs, k, tokens)[j] ==
      if vs[j].login.Some? && vs[j].login.value != tokens[1] then Write(vs[j], OnlineLine(tokens[1])) else vs[j]
  {
  }

  /** Putting a session logged in as name at index k adds no line to the online listing: the
      listing is that of the other sessions. */
  lemma OnlineLinesSkipSelf(vs: seq<SessionView>, k: nat, me: SessionView, name: string)
    requires k < |vs| && me.login == Some(name)
    ensures OnlineLines(vs[k := me], name) == OnlineLines(Without(vs, k), name)
  {
    assert vs[k := me] == vs[..k] + [me] + vs[k + 1..];
    assert Without(vs, k) == vs[..k] + vs[k + 1..];
    OnlineLinesAppend(vs[..k] + [me], vs[k + 1..], name);
    OnlineLinesAppend(vs[..k], [me], name);
    OnlineLinesAppend(vs[..k], vs[k + 1..], name);
    assert OnlineLines([me], name) == [] by {
      assert [me][..0] == [];
    }
  }

  /** After a successful login with a name that trim leaves as it is, the new session gets
      "ok login" followed by one "online P" per other logged-in client with a different name P, in
      list order, and never its own name; it is logged in under that name and its topics are kept. */
  lemma LoginGreetsNewcomer(users: UserTable.Table, vs: seq<SessionView>, k: nat, tokens: seq<string>)
    requires k < |vs| && |tokens| == 3 && UserTable.Verify(users, tokens[1], tokens[2])
    requires Trim(tokens[1]) == tokens[1]
    ensures Login(users, vs, k, tokens)[k] ==
      SessionView(Some(tokens[1]), vs[k].topics, vs[k].outbox + [OkLogin] + OnlineLines(Without(vs, k), tokens[1]))
    ensures OnlineLine(tokens[1]) !in OnlineLines(Without(vs, k), tokens[1])
  {
    var name := tokens[1];
    var me := Write(vs[k], OkLogin).(login := Some(name));
    var vs1 := vs[k := me];
    OnlineLinesSkipSelf(vs, k, me, name);
    var vs2 := vs1[k := me.(outbox := me.outbox + OnlineLines(vs1, name))];
    assert Login(users, vs, k, tokens) == Deliver(vs2, OnlineLine(name), NotNamed(name));
    assert !Addressed(NotNamed(name), vs2[k]);
    OnlineLinesListPeers(Without(vs, k), name, name);
  }

  /** A name with a leading or trailing character at most U+0020 (a control character the
      whitespace split keeps) is stored trimmed but compared as typed: the new session then is
      told "online <trimmed name>" about itself by the first loop, and its stream ends with
      "online <typed name>" from the second. */
  lemma LoginEchoesUntrimmedName(users: UserTable.Table, vs: seq<SessionView>, k: nat, tokens: seq<string>)
    requires k < |vs| && |tokens| == 3 && UserTable.Verify(users, tokens[1], tokens[2])
    requires Trim(tokens[1]) != tokens[1]
    ensures var me := Login(users, vs, k, tokens)[k];
      && me.login == Some(Trim(tokens[1]))
      && OnlineLine(Trim(tokens[1])) in me.outbox
      && me.outbox[|me.outbox| - 1] == OnlineLine(tokens[1])
  {
    var name := tokens[1];
    var me := Write(vs[k], OkLogin).(login := Some(Trim(name)));
    var vs1 := vs[k := me];
    OnlineLinesListPeers(vs1, name, Trim(name));
    assert vs1[k].login == Some(Trim(name));
    var greeted := me.outbox + OnlineLines(vs1, name);
    assert OnlineLine(Trim(name)) in greeted;
    var vs2 := vs1[k := me.(outbox := greeted)];
    assert Addressed(NotNamed(name), vs2[k]);
    assert Login(users, vs, k, tokens)[k].outbox == greeted + [OnlineLine(name)];
  }

  // ---------------------------------------------------------------- register

  /** register with three tokens answers "ok register" and stores the pair exactly when the name is
      free, and otherwise reports it taken; with any other token count it is refused without
      touching the table. */
  lemma RegisterReplies(users: UserTable.Table, vs: seq<SessionView>, k: nat, tokens: seq<string>)
    requires k < |vs|
    ensures var w := Register(users, vs, k, tokens);
      && |w.sessions| == |vs|
      && (forall j :: 0 <= j < |vs| && j != k ==> w.sessions[j] == vs[j])
      && w.sessions[k] == Write(vs[k],
           if |tokens| != 3 then ErrorRegister
           else if tokens[1] !in users then OkRegister
           else ErrorRegisterTaken)
      && w.users == (if |tokens| == 3 && tokens[1] !in users then users[tokens[1] := tokens[2]] else users)
  {
  }

  // ---------------------------------------------------------------- topics

  /** join and leave with a topic change this session's topic set only, and repeating either is
      idempotent; with one token neither changes anything. */
  lemma JoinLeaveTopics(vs: seq<SessionView>, k: nat, tokens: seq<string>)
    requires k < |vs|
    ensures |tokens| <= 1 ==> Join(vs, k, tokens) == vs && Leave(vs, k, tokens) == vs
    ensures |tokens| > 1 ==> Join(vs, k, tokens)[k].topics == vs[k].topics + {tokens[1]}
    ensures |tokens| > 1 ==> Leave(vs, k, tokens)[k].topics == vs[k].topics - {tokens[1]}
    ensures forall j :: 0 <= j < |vs| && j != k ==> Join(vs, k, tokens)[j] == vs[j] && Leave(vs, k, tokens)[j] == vs[j]
    ensures Join(vs, k, tokens)[k].outbox == vs[k].outbox && Leave(vs, k, tokens)[k].outbox == vs[k].outbox
    ensures Join(vs, k, tokens)[k].login == vs[k].login && Leave(vs, k, tokens)[k].login == vs[k].login
    ensures Join(Join(vs, k, tokens), k, tokens) == Join(vs, k, tokens)
    ensures Leave(Leave(vs, k, tokens), k, tokens) == Leave(vs, k, tokens)
  {
    if |tokens| > 1 {
      assert vs[k].topics - {tokens[1]} - {tokens[1]} == vs[k].topics - {tokens[1]};
      assert vs[k].topics + {tokens[1]} + {tokens[1]} == vs[k].topics + {tokens[1]};
    }
  }

  // ---------------------------------------------------------------- messages

  /** A topic message from a logged-in sender reaches exactly the logged-in members of the topic,
      the sender included when it is a member. */
  lemma TopicMessageReachesMembers(vs: seq<SessionView>, k: nat, parts: seq<string>, j: nat)
    requires k < |vs| && j < |vs| && vs[k].login.Some? && |parts| == 3
    requires parts[1] != [] && parts[1][0] == '#'
    ensures Message(vs, k, parts)[j] ==
      if vs[j].login.Some? && parts[1] in vs[j].topics
      then Write(vs[j], "msg " + parts[1] + ":" + vs[k].login.value + " " + parts[2] + "\n\r")
      else vs[j]
  {
  }

  /** A direct message from a logged-in sender reaches every logged-in session whose name equals
      the target ignoring case, and no other. */
  lemma DirectMessageReachesMatches(vs: seq<SessionView>, k: nat, parts: seq<string>, j: nat)
    requires k < |vs| && j < |vs| && vs[k].login.Some? && |parts| == 3
    requires parts[1] != [] && parts[1][0] != '#'
    ensures Message(vs, k, parts)[j] ==
      if vs[j].login.Some? && EqualsIgnoreCase(vs[j].login.value, parts[1])
      then Write(vs[j], vs[k].login.value + ": " + parts[2] + "\n\r")
      else vs[j]
  {
  }

  /** A message nobody is addressed by changes no outbox at all. */
  lemma UnmatchedMessageIsSilent(vs: seq<SessionView>, k: nat, parts: seq<string>)
    requires k < |vs| && vs[k].login.Some? && |parts| == 3 && parts[1] != []
    requires forall j :: 0 <= j < |vs| ==>
      !Addressed(if parts[1][0] == '#' then TopicMembers(parts[1]) else NameMatches(parts[1]), vs[j])
    ensures Message(vs, k, parts) == vs
  {
  }

  /** A guest, or a line without both target and body, only earns the sender the login-required
      line. */
  lemma MessageNeedsLogin(vs: seq<SessionView>, k: nat, parts: seq<string>)
    requires k < |vs| && (vs[k].login.None? || |parts| != 3)
    ensures Message(vs, k, parts) == vs[k := Write(vs[k], LoginToMessage)]
  {
  }

  /** A join just before a topic message puts the joiner among its recipients, a leave takes it
      out. */
  lemma JoinThenTopicMessage(vs: seq<SessionView>, k: nat, s: nat, topic: string, parts: seq<string>)
    requires k < |vs| && s < |vs| && k != s && vs[k].login.Some? && vs[s].login.Some?
    requires |parts| == 3 && parts[1] == topic && topic != [] && topic[0] == '#'
    ensures var joined := Join(vs, k, ["join", topic]);
      Message(joined, s, parts)[k].outbox == vs[k].outbox + [TopicLine(topic, vs[s].login.value, parts[2])]
    ensures var left := Leave(vs, k, ["leave", topic]);
      Message(left, s, parts)[k].outbox == vs[k].outbox
  {
  }

  /** msg-broadcast from a logged-in sender reaches every logged-in session under another name and
      never the sender. */
  lemma BroadcastExcludesSender(vs: seq<SessionView>, k: nat, parts: seq<string>, j: nat)
    requires k < |vs| && j < |vs| && vs[k].login.Some? && |parts| >= 2
    ensures Broadcast(vs, k, parts)[k] == vs[k]
    ensures Broadcast(vs, k, parts)[j] ==
      if vs[j].login.Some? && vs[j].login != vs[k].login
      then Write(vs[j], "msg " + vs[k].login.value + " " + parts[1] + "\n\r")
      else vs[j]
  {
  }

  /** msg-broadcast from a guest only earns it the login-required line. */
  lemma BroadcastNeedsLogin(vs: seq<SessionView>, k: nat, parts: seq<string>)
    requires k < |vs| && vs[k].login.None?
    ensures Broadcast(vs, k, parts) == vs[k := Write(vs[k], LoginToMessage)]
  {
  }

  // ---------------------------------------------------------------- leaving

  /** logoff takes the session out of the list, keeps the others in order, and tells each remaining
      logged-in session under another name that the user went offline. */
  lemma LogoffTellsOthers(vs: seq<SessionView>, k: nat, j: nat)
    requires k < |vs| && vs[k].login.Some? && j < |vs| - 1
    ensures |Logoff(vs, k)| == |vs| - 1
    ensures var other := vs[if j < k then j else j + 1];
      Logoff(vs, k)[j] ==
        if other.login.Some? && other.login != vs[k].login
        then Write(other, "offline " + vs[k].login.value + "\n\r")
        else other
  {
  }

  /** deregister from a guest writes the refusal, keeps the table and the list, and the loop goes on. */
  lemma DeregisterAsGuest(w: World, k: nat)
    requires k < |w.sessions| && w.sessions[k].login.None?
    ensures var st := Deregister(w, k);
      && st.world == World(w.users, w.sessions[k := st.self])
      && st.self == Write(w.sessions[k], LoginToDeregister)
      && !st.breakLoop
  {
  }

  /** deregister when logged in as u: the session leaves the list and the loop stops whether or not
      the table still held u; u is absent from the table afterwards; the sender is told ok exactly
      when u was removed, and only then does every remaining logged-in session hear
      "deregistered u". */
  lemma DeregisterLoggedIn(w: World, k: nat, j: nat)
    requires k < |w.sessions| && w.sessions[k].login.Some? && j < |w.sessions| - 1
    ensures var st, u := Deregister(w, k), w.sessions[k].login.value;
      && st.breakLoop
      && st.world.users.Keys == w.users.Keys - {u}
      && st.self == Write(w.sessions[k], if u in w.users then OkDeregister(u) else ErrorDeregister(u))
      && |st.world.sessions| == |w.sessions| - 1
      && var other := w.sessions[if j < k then j else j + 1];
         st.world.sessions[j] ==
           if u in w.users && other.login.Some? then Write(other, "deregistered " + u + "\n\r") else other
  {
  }

  // ---------------------------------------------------------------- queries

  /** The who-is-online listing for a querier logged in as n names exactly the users P logged in on
      some client under a name other than n, and carries a login-required notice exactly when some
      client is a guest. */
  lemma {:induction false} WhoLinesListOthers(vs: seq<SessionView>, n: string, p: string)
    ensures ListedLine(p) in WhoLines(vs, Some(n)) <==>
      exists j :: 0 <= j < |vs| && vs[j].login == Some(p) && p != n
    ensures LoginToList in WhoLines(vs, Some(n)) <==> exists j :: 0 <= j < |vs| && vs[j].login.None?
    decreases |vs|
  {
    if vs != [] {
      var init, last := vs[..|vs| - 1], vs[|vs| - 1];
      WhoLinesListOthers(init, n, p);
      ListedLineInjective(p, p);
      if last.login.Some? {
        ListedLineInjective(p, last.login.value);
        ListedLineInjective(last.login.value, p);
      }
      if exists j :: 0 <= j < |vs| && vs[j].login == Some(p) && p != n {
        var j :| 0 <= j < |vs| && vs[j].login == Some(p) && p != n;
        if j < |vs| - 1 {
          assert init[j] == vs[j];
        }
      }
      if exists j :: 0 <= j < |vs| && vs[j].login.None? {
        var j :| 0 <= j < |vs| && vs[j].login.None?;
        if j < |vs| - 1 {
          assert init[j] == vs[j];
        }
      }
    }
  }

  /** The number of guests in the list. */
  function Guests(vs: seq<SessionView>): nat
  {
    if vs == [] then 0 else Guests(vs[..|vs| - 1]) + (if vs[|vs| - 1].login.None? then 1 else 0)
  }

  /** The listing carries one login-required notice per guest in the list. */
  lemma {:induction false} WhoLinesNoticePerGuest(vs: seq<SessionView>, me: Option<string>)
    ensures multiset(WhoLines(vs, me))[LoginToList] == Guests(vs)
    decreases |vs|
  {
    if vs != [] {
      var init, last := vs[..|vs| - 1], vs[|vs| - 1];
      WhoLinesNoticePerGuest(init, me);
      if last.login.Some? {
        ListedLineInjective(last.login.value, last.login.value);
      }
    }
  }

  /** who-is-online writes only to the querier: the header and the listing, nothing to anyone else. */
  lemma WhoIsOnlineTouchesOnlyQuerier(vs: seq<SessionView>, k: nat)
    requires k < |vs| && vs[k].login.Some?
    ensures |WhoIsOnline(vs, k)| == |vs|
    ensures forall j :: 0 <= j < |vs| && j != k ==> WhoIsOnline(vs, k)[j] == vs[j]
    ensures WhoIsOnline(vs, k)[k].outbox == vs[k].outbox + [ListHeader] + WhoLines(vs, vs[k].login)
    ensures ListedLine(vs[k].login.value) !in WhoLines(vs, vs[k].login)
  {
    WhoLinesListOthers(vs, vs[k].login.value, vs[k].login.value);
  }

  /** whoami writes the login, or the guest notice, to the asking session and to no other. */
  lemma WhoAmIAnswers(vs: seq<SessionView>, k: nat)
    requires k < |vs|
    ensures |WhoAmI(vs, k)| == |vs|
    ensures forall j :: 0 <= j < |vs| && j != k ==> WhoAmI(vs, k)[j] == vs[j]
    ensures WhoAmI(vs, k)[k] == Write(vs[k], if vs[k].login.Some? then vs[k].login.value + "\n\r" else GuestNotice)
  {
  }
}
