/** The server's table of registered users (MyServer.usersTable): a map from user name
    to plain-text password, with exact, case-sensitive keys. */
module UserTable {

  type Table = map<string, string>

  /** The three accounts MyServer.run puts into the table before accepting connections. */
  const Seeded: Table := map["Fares" := "Fares1234", "Motaz" := "motz_789", "Mohammad" := "moh123"]

  /** MyServer.registerNewUser: a name that is absent gets the password and the call succeeds;
      a taken name leaves the table alone and the call fails. */
  function Register(t: Table, user: string, password: string): (r: (Table, bool))
    ensures r.1 <==> user !in t
    ensures user in r.0 && r.0[user] == (if r.1 then password else t[user])
    ensures r.0.Keys == t.Keys + {user}
    ensures forall v :: v in t && v != user ==> r.0[v] == t[v]
  {
    if user !in t then (t[user := password], true) else (t, false)
  }

  /** MyServer.deregisterUser: the call succeeds iff the name was a key; the name is gone afterwards
      and every other entry is kept. */
  function Deregister(t: Table, user: string): (r: (Table, bool))
    ensures r.1 <==> user in t
    ensures r.0.Keys == t.Keys - {user}
    ensures forall v :: v in r.0 ==> r.0[v] == t[v]
  {
    (t - {user}, user in t)
  }

  /** The password check processLogin performs: the name is a key and its value equals the password.
      A name that passes it is taken for registerNewUser and present for deregisterUser. */
  function Verify(t: Table, user: string, password: string): (r: bool)
    ensures r ==> !Register(t, user, password).1 && Register(t, user, password).0 == t
    ensures r ==> Deregister(t, user).1
  {
    user in t && t[user] == password
  }

  /** Registering the same name twice: true then false, and the second password is not stored. */
  lemma RegisterTwice(t: Table, user: string, p1: string, p2: string)
    requires user !in t
    ensures Register(t, user, p1).1
    ensures !Register(Register(t, user, p1).0, user, p2).1
    ensures Register(Register(t, user, p1).0, user, p2).0 == Register(t, user, p1).0
    ensures Verify(Register(Register(t, user, p1).0, user, p2).0, user, p2) <==> p2 == p1
  {
  }

  /** Registration and then deregistration of a fresh name restore the table. */
  lemma DeregisterUndoesRegister(t: Table, user: string, password: string)
    requires user !in t
    ensures Deregister(Register(t, user, password).0, user) == (t, true)
  {
    assert t[user := password] - {user} == t;
  }

  /** The seeded accounts log in with their passwords, and keys are matched case-sensitively:
      "fares" is not taken although "Fares" is. */
  lemma SeededAccounts()
    ensures Verify(Seeded, "Fares", "Fares1234") && Verify(Seeded, "Motaz", "motz_789")
    ensures Verify(Seeded, "Mohammad", "moh123")
    ensures |Seeded| == 3
    ensures !Register(Seeded, "Fares", "x").1 && Register(Seeded, "fares", "x").1
  {
    assert "fares" != "Fares" by { assert "fares"[0] != "Fares"[0]; }
    assert "fares" != "Motaz" && "fares" != "Mohammad";
    assert Seeded.Keys == {"Fares", "Motaz", "Mohammad"};
  }
}
