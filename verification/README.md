# Multi-user chat server: command semantics

A model of a small line-based chat server. `MyServer` keeps a table of registered users (name to
plain-text password) and the list of connected clients. Each `ClientProcessor` is one client
session. It reads lines, lower-cases the first word and dispatches on it:

- `login`, `register`, `deregister`;
- `join` and `leave` a topic;
- `msg` to a topic (`#name`) or to a user;
- `msg-broadcast`;
- `who-is-online` / `who-is-connected`, `whoami`;
- `logoff` / `quit`.

It answers with lines ending in LF followed by CR. A session that has not logged in is a guest.
`send` writes only to a logged-in session's stream; a direct write to the stream always lands.

The model has two layers.

- **Value level.** `Protocol` describes the effect of every command as a function of a `World`:
  - the user table;
  - the list of `SessionView`s, one per client, each with its login, its topic set and everything written to its stream so far (`outbox`);
  - the index of the session that runs the command.

  `ProtocolFacts` proves what each command promises about who receives which line. `UserTable`, `ClientList` and `JavaText` model the `Hashtable`, the `ArrayList.remove` and the `String` operations the code relies on (`trim`, `toLowerCase`, `equalsIgnoreCase`).
- **Object level.** `Chat` has the classes `Server` (fields `users` and `clients`) and `Session` (fields `login`, `topics`, `outbox`).
  - Each `Session.Process…` method updates these objects the way the Java does, looping over the client list.
  - Each is proved to leave the server in exactly the state the matching `Protocol` function describes.
  - `Session.ProcessLine` is the body of the read loop: one line in, the flag that stops the loop out.

`getLogin` and `getClientsList` are field reads; they appear as `Session.GetLogin` and `Server.clients`. `isMemberOfTopic` appears as the topic test of `Protocol.Addressed` for the `TopicMembers` audience.

Points where the code's behaviour is easy to misread:

- A session may log in again while logged in. Nothing forbids it, so the login is not "set at most once".
- Lines end in `"\n\r"` (LF, CR), not CRLF.
- `deregister` with a name already gone from the table still removes the session from the list and stops its loop. The session does not stay open.
- The guest notice of `who-is-online` is kept exactly as written, ending in `"usersn\r"`.
- A session is normally never told "online" about itself. A user name with a leading or trailing
  character at most U+0020 breaks this. Such a character is a control character, which the
  whitespace split keeps. `processLogin` stores the trimmed name but compares the name as typed,
  so the new session is told "online <trimmed name>" and "online <typed name>" about itself
  (`ProtocolFacts.LoginEchoesUntrimmedName`).

The code has runtime failures that end a session's thread. The model does not follow a thread into an exception. Instead, the lines that would raise one are excluded by a precondition (`Protocol.Safe`):

- `logoff` by a guest while other clients are connected (`login.equals` on null);
- `who-is-online` by a guest while someone is logged in (the same);
- `msg-broadcast` with no body by a logged-in user (`tokens[1]` out of bounds);
- `msg` with an empty target (`charAt(0)`). The parts come from `StringUtils.split(line, " ", 3)` (ClientProcessor.java line 86), which treats adjacent spaces as one separator, so it never produces this.

## Model

| member | source | states |
|---|---|---|
| JavaText.TrimStart | my_client/ClientProcessor.java:162 | the result is a suffix of the input, all dropped characters are <= ' ', and the result does not start with one |
| JavaText.TrimEnd | my_client/ClientProcessor.java:162 | the result is a prefix of the input, all dropped characters are <= ' ', and the result does not end with one |
| JavaText.Trim | my_client/ClientProcessor.java:162 | `login.trim()` yields the piece of the input that neither starts nor ends with a character <= ' ', with only such characters before and after it in the input; a name with no such character is kept as it is |
| JavaText.ToLowerCase | my_client/ClientProcessor.java:71 | the command word keeps its length, each character is lowered, and no upper-case letter is left |
| JavaText.EqualsIgnoreCase | my_client/ClientProcessor.java:313 | `equalsIgnoreCase` holds exactly when both names lower-case to the same string |
| UserTable.Register | my_server/MyServer.java:41-50 | registerNewUser succeeds iff the name was absent; then it maps to the new password, otherwise the old one is kept; no other entry changes |
| UserTable.Deregister | my_server/MyServer.java:52-54 | deregisterUser succeeds iff the name was a key; afterwards the name is absent and every other entry is unchanged |
| UserTable.RegisterTwice | my_server/MyServer.java:44-49 | registering the same name twice gives true then false, the second call leaves the table unchanged, and the second password verifies only if it equals the first |
| UserTable.DeregisterUndoesRegister | my_server/MyServer.java:41-54 | deregistering a freshly registered name succeeds and restores the table |
| UserTable.Verify | my_client/ClientProcessor.java:156-158 | a name and password that pass the login check belong to a taken name: `registerNewUser` refuses it and leaves the table alone, and `deregisterUser` succeeds on it |
| UserTable.SeededAccounts | my_server/MyServer.java:70-72 | the three seeded accounts log in with their passwords, there are exactly three, and keys are case-sensitive ("Fares" is taken, "fares" is free) |
| ClientList.RemoveFirst | my_server/MyServer.java:57-59 | `ArrayList.remove` is a no-op when the element is absent, removes one element when present, and removes exactly one occurrence from the multiset |
| ClientList.RemoveFirstKeeps | my_server/MyServer.java:58 | removing a session from the list never brings in one that was not there |
| ClientList.RemoveFirstAt | my_server/MyServer.java:58 | removing the first occurrence found at index i splices the list around i, keeping the order of the rest |
| ClientList.DistinctSplice | my_server/MyServer.java:58 | taking one entry out of a list without repetitions leaves a list without repetitions that no longer holds it |
| ClientList.RemoveFromDistinct | my_server/MyServer.java:57-59 | in a list without repetitions the removed session is gone, no other is lost or reordered, and the list stays without repetitions |
| Protocol.Send | my_client/ClientProcessor.java:232-244 | send appends the line to a logged-in session and never changes a guest; login and topics are untouched |
| Protocol.Deliver | my_client/ClientProcessor.java:298-322 | a fan-out over the client list keeps the list's length, logins and topics, and grows exactly the logged-in addressed sessions' outboxes by exactly the one line |
| Protocol.Without | my_server/MyServer.java:58 | the list after removing index k: one shorter, with the others in their old order |
| Protocol.OnlineLines | my_client/ClientProcessor.java:168-180 | the first login loop writes at most one line per client |
| Protocol.Login | my_client/ClientProcessor.java:148-199 | login changes only the sender's login (to the trimmed name, iff three tokens pass the check), no topic set, and only appends to streams |
| Protocol.Register | my_client/ClientProcessor.java:201-230 | register writes exactly one reply to the sender only, keeps its login and topics, and never overwrites an existing account |
| Protocol.Join | my_client/ClientProcessor.java:265-276 | join puts the topic into the sender's topic set, writes nothing, and touches no other session |
| Protocol.Leave | my_client/ClientProcessor.java:246-257 | leave takes the topic out of the sender's topic set, writes nothing, and touches no other session |
| Protocol.Message | my_client/ClientProcessor.java:280-328 | msg changes no login or topic set, and each stream gets at most one new line |
| Protocol.Broadcast | my_client/ClientProcessor.java:330-359 | msg-broadcast changes no login or topic set, each stream gets at most one new line, and a logged-in sender gets nothing |
| Protocol.Logoff | my_client/ClientProcessor.java:361-381 | logoff removes the sender from the list, keeps the others' logins and topics in order, and each of them gets at most one new line |
| Protocol.Deregister | my_client/ClientProcessor.java:383-424 | the loop stops iff the sender is logged in; then the list is one shorter and the name is no longer in the table; otherwise table and other sessions are unchanged; the sender always gets exactly one line |
| Protocol.WhoLines | my_client/ClientProcessor.java:433-448 | the listing has at most one line per client, and a guest asker sees only login-required notices |
| Protocol.WhoLinesReadLogins | my_client/ClientProcessor.java:433-448 | the listing depends only on the clients' logins, not on what was written to them |
| Protocol.WhoIsOnline | my_client/ClientProcessor.java:426-449 | who-is-online only appends to the asker's stream and touches no other session |
| Protocol.WhoAmI | my_client/ClientProcessor.java:451-465 | whoami appends exactly one line to the asker's stream and touches no other session |
| Protocol.Dispatch | my_client/ClientProcessor.java:65-139 | the loop stops iff the command is quit or logoff, or deregister by a logged-in session, and then the session has left the list; otherwise the list keeps its length and the session its index; only register and deregister change the table |
| Chat.Server.constructor | my_server/MyServer.java:23-30 | a new server has no clients, and the table holds the three accounts `run()` puts in before accepting (MyServer.java lines 70-72) |
| Chat.Server.RegisterNewUser | my_server/MyServer.java:41-50 | updates the table and returns the flag exactly as `UserTable.Register` describes |
| Chat.Server.DeregisterUser | my_server/MyServer.java:52-54 | updates the table and returns the flag exactly as `UserTable.Deregister` describes |
| Chat.Server.RemoveClientProcess | my_server/MyServer.java:57-59 | the list becomes `RemoveFirst` of the old one; the session is no longer in it; when it was, the remaining sessions' views are the old ones without it, in order |
| Chat.Server.Accept | my_server/MyServer.java:77-85 | accepting a connection appends one fresh session to the end of the list: a guest with no topics and nothing written |
| Chat.Server.SendEach | my_client/ClientProcessor.java:184-190 | the loop sends one line to every client in list order that the audience addresses, leaving the list and the table alone; the new views are `Deliver` of the old |
| Chat.Session.constructor | my_client/ClientProcessor.java:28-43 | a new session belongs to its server, is a guest, has no topics and nothing written |
| Chat.Session.Send | my_client/ClientProcessor.java:232-244 | the object-level send changes this session as `Protocol.Send` describes |
| Chat.Session.ProcessJoin | my_client/ClientProcessor.java:265-276 | the server's views become `Join` of the old ones; nothing else changes |
| Chat.Session.ProcessLeave | my_client/ClientProcessor.java:246-257 | the server's views become `Leave` of the old ones; nothing else changes |
| Chat.Session.ProcessWhoAmI | my_client/ClientProcessor.java:451-465 | writes the login or the guest notice to this session only |
| Chat.Session.ProcessRegister | my_client/ClientProcessor.java:201-230 | table and views become `Protocol.Register` of the old ones; the list is unchanged |
| Chat.Session.ProcessMessage | my_client/ClientProcessor.java:280-328 | the views become `Message` of the old ones; table and list unchanged |
| Chat.Session.ProcessMessageBroadcast | my_client/ClientProcessor.java:330-359 | the views become `Broadcast` of the old ones; table and list unchanged |
| Chat.Session.TellWhoIsOnline | my_client/ClientProcessor.java:165-180 | the first login loop appends `OnlineLines` of the whole list to this session and touches no other session |
| Chat.Session.ProcessLogin | my_client/ClientProcessor.java:148-199 | the views become `Login` of the old ones; table and list unchanged |
| Chat.Session.ListOnlineUsers | my_client/ClientProcessor.java:433-448 | the loop appends `WhoLines` of the whole list to this session and touches no other session |
| Chat.Session.ProcessQueryWhoIsConnected | my_client/ClientProcessor.java:426-449 | the views become `WhoIsOnline` of the old ones; table and list unchanged |
| Chat.Session.ProcessLogoff | my_client/ClientProcessor.java:361-381 | the session leaves the list (`RemoveFirst`), the remaining views are `Logoff` of the old ones, the table and the leaving session are unchanged |
| Chat.Session.ProcessDeregister | my_client/ClientProcessor.java:383-424 | table, list, this session and the returned flag are exactly `Protocol.Deregister`'s; the flag is true iff the session left the list; the list of objects is `RemoveFirst` of the old one when the flag is set and unchanged otherwise |
| Chat.Session.LeaveAndDeregister | my_client/ClientProcessor.java:387-415 | a logged-in session leaves the list (the list of objects becomes `RemoveFirst` of the old one) and ends in exactly the state `Deregister` describes |
| Chat.Session.FinishDeregister | my_client/ClientProcessor.java:396-413 | once out of the list: the table loses the name; "ok deregister" and the broadcast to the remaining clients iff it was a key, "error deregister" otherwise; the list is unchanged |
| Chat.Session.ProcessLine | my_client/ClientProcessor.java:65-139 | one pass of the read loop does exactly what `Dispatch` describes; the loop stops iff the session has left the list; the list of objects is `RemoveFirst` of the old one when it stops and unchanged otherwise, so every other session stays listed |
| ProtocolFacts.OnlineLineInjective | my_client/ClientProcessor.java:175 | two "online" lines are equal only when they name the same user |
| ProtocolFacts.ListedLineInjective | my_client/ClientProcessor.java:440-445 | two listed lines are equal only for the same user, and a listed line is never the login-required notice |
| ProtocolFacts.BlankLineSkipped | my_client/ClientProcessor.java:67-69 | a line with no words changes nothing and does not stop the loop |
| ProtocolFacts.UnknownCommandAnswered | my_client/ClientProcessor.java:126-128 | an unknown command appends exactly "unknown cmd" to the sender and changes nothing else |
| ProtocolFacts.CommandIgnoresCase | my_client/ClientProcessor.java:71-74 | two lines whose first words differ only in case have the same effect |
| ProtocolFacts.CommandAliases | my_client/ClientProcessor.java:75-107 | quit and logoff have the same effect, and so do who-is-online and who-is-connected |
| ProtocolFacts.TokensPastCommand | my_client/ClientProcessor.java:151-153 | login, join, leave and register give the same result on two token arrays that agree past the command word |
| ProtocolFacts.OnlineLinesAppend | my_client/ClientProcessor.java:168-180 | the lines the first login loop produces for two lists one after the other are its lines for the first followed by its lines for the second |
| ProtocolFacts.OnlineLinesListPeers | my_client/ClientProcessor.java:168-180 | the newcomer is told "online P" iff some client is logged in as P and P differs from the name typed |
| ProtocolFacts.OnlineLinesSkipSelf | my_client/ClientProcessor.java:173-174 | a session logged in under the name as typed adds no line; the listing is that of the other clients |
| ProtocolFacts.LoginNeedsThreeTokens | my_client/ClientProcessor.java:151 | login with other than three tokens changes nothing |
| ProtocolFacts.LoginOutcome | my_client/ClientProcessor.java:151-196 | with three tokens, the sender's first new line is "ok login" iff the table maps the name to the password; on success it is logged in under the trimmed name, on failure only "error login" is written |
| ProtocolFacts.LoginNotifiesOthers | my_client/ClientProcessor.java:183-190 | after a successful login each other session gets exactly one "online name" if it is logged in under another name, and nothing otherwise (guests included) |
| ProtocolFacts.LoginGreetsNewcomer | my_client/ClientProcessor.java:160-180 | for a name that `trim` leaves unchanged, the newcomer gets "ok login" followed by the online lines of the other clients in list order, never its own name; its topics are kept |
| ProtocolFacts.LoginEchoesUntrimmedName | my_client/ClientProcessor.java:160-190 | for a name that `trim` changes, the newcomer is logged in under the trimmed name, is told "online <trimmed name>" about itself, and its last line is "online <typed name>" |
| ProtocolFacts.RegisterReplies | my_client/ClientProcessor.java:201-230 | register replies "ok register" and stores the pair iff three tokens and a free name, "already taken" for a taken name, "error register" otherwise; only the sender is written to |
| ProtocolFacts.JoinLeaveTopics | my_client/ClientProcessor.java:246-276 | join/leave add/remove the topic in this session only, write nothing, are idempotent, and with one token change nothing |
| ProtocolFacts.TopicMessageReachesMembers | my_client/ClientProcessor.java:302-310 | a topic message reaches exactly the logged-in members of the topic, the sender included when a member |
| ProtocolFacts.DirectMessageReachesMatches | my_client/ClientProcessor.java:311-319 | a direct message reaches exactly the logged-in sessions whose name equals the target ignoring case, every one of them |
| ProtocolFacts.UnmatchedMessageIsSilent | my_client/ClientProcessor.java:297-322 | a message that addresses no session changes nothing |
| ProtocolFacts.MessageNeedsLogin | my_client/ClientProcessor.java:323-326 | a guest, or a message without target and body, only gets the login-required line |
| ProtocolFacts.JoinThenTopicMessage | my_client/ClientProcessor.java:265-310 | after join a logged-in session receives a topic message; after leave it does not |
| ProtocolFacts.BroadcastExcludesSender | my_client/ClientProcessor.java:338-354 | a broadcast reaches every logged-in session under another name and never the sender |
| ProtocolFacts.BroadcastNeedsLogin | my_client/ClientProcessor.java:355-358 | a broadcast by a guest only gets it the login-required line |
| ProtocolFacts.LogoffTellsOthers | my_client/ClientProcessor.java:361-376 | logoff removes the session, keeps the others in order, and tells each remaining logged-in session under another name "offline user" |
| ProtocolFacts.DeregisterAsGuest | my_client/ClientProcessor.java:416-423 | a guest's deregister writes the refusal, keeps table and list, and does not stop the loop |
| ProtocolFacts.DeregisterLoggedIn | my_client/ClientProcessor.java:387-415 | a logged-in deregister always leaves the list and stops the loop; the name is absent from the table afterwards; the sender gets ok iff the name was removed, and only then does every remaining logged-in session get "deregistered user" |
| ProtocolFacts.WhoLinesListOthers | my_client/ClientProcessor.java:433-448 | the listing names exactly the users logged in under another name, and carries a login-required notice iff some client is a guest |
| ProtocolFacts.WhoLinesNoticePerGuest | my_client/ClientProcessor.java:444-447 | the listing carries exactly one login-required notice per guest in the list |
| ProtocolFacts.WhoIsOnlineTouchesOnlyQuerier | my_client/ClientProcessor.java:426-449 | who-is-online writes the header and the listing to the querier only, and never lists the querier's own name |
| ProtocolFacts.WhoAmIAnswers | my_client/ClientProcessor.java:451-465 | whoami writes the login, or the guest notice for a guest, to the asking session and to no other |

## Left out

- Sockets, streams and bytes. A stream is the sequence of lines written to it (`outbox`). Closing a client socket and the I/O errors a write may raise are not modelled.
- Threads. Every command runs atomically on the shared state. Interleavings between sessions, and the races on the unsynchronised list and table, are not modelled.
- The `while (readLine() != null)` read loop itself, and the `start()` of the thread. `ProcessLine` is one iteration; stopping the loop is its result.
- `StringUtils.split` (Apache Commons Lang) is not part of this model. A `Line` carries the three splits the code uses, already computed.
- The console logging (`System.out` / `System.err`) and the server's port and listening socket (`ServerSocket`, `run`'s accept loop beyond the `add`).
- `getUsersTable` and the `static` nature of the table: the table is the `users` field of the one server.
- Runtime exceptions. The inputs that raise one are excluded by preconditions rather than modelled as a thread dying; see above.
- JavaText.ToLowerCase: only ASCII letters are folded. The Unicode case mapping of `String.toLowerCase` and `equalsIgnoreCase` beyond ASCII is not modelled.
- JavaText.EqualsIgnoreCase: only ASCII letters are folded, so pairs Java's Unicode case mapping equates (for example dotless "ı" and "i") are unequal here.
- JavaText.Trim: only as `trim` is defined on characters; supplementary code points are single `char`s here.
