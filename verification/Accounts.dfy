/** The server's table of accounts, and what it means in terms of the requests made so far. */
module Accounts {
  import opened Text

  /** An account. The descriptor is that of the connection the server pushes messages to. */
  datatype User = User(username: string, password: string, isLogin: bool, socketFd: int)

  type Users = map<string, User>

  /** One change of the table. A LOGOUT of an unknown name creates an entry whose descriptor
      nothing initialises: junk is the value found there. */
  datatype Op =
    | Add(name: string, password: string, fd: int)
    | Login(name: string, password: string)
    | LogOut(name: string, junk: int)

  function Apply(users: Users, op: Op): Users {
    match op
    case Add(name, password, fd) => users[name := User(name, password, false, fd)]
    case Login(name, password) =>
      if name in users && users[name].password == password
      then users[name := users[name].(isLogin := true)]
      else users
    case LogOut(name, junk) =>
      if name in users then users[name := users[name].(isLogin := false)]
      else users[name := User("", "", false, junk)]
  }

  predicate IsLogin(users: Users, name: string) { name in users && users[name].isLogin }

  class UserStore {
    var users: Users

    constructor ()
      ensures users == map[]
    {
      users := map[];
    }

    /** Field by field, as the setters are called; the first of them makes a missing entry. */
    method AddUser(user: User)
      modifies this
      ensures users == old(users)[user.username := user]
      ensures !user.isLogin ==> users == Apply(old(users), Add(user.username, user.password, user.socketFd))
    {
      var name := user.username;
      var entry := if name in users then users[name] else User("", "", false, 0);
      users := users[name := entry.(username := name)];
      users := users[name := users[name].(password := user.password)];
      users := users[name := users[name].(isLogin := user.isLogin)];
      users := users[name := users[name].(socketFd := user.socketFd)];
    }

    method LoginUser(username: string, password: string) returns (ok: bool)
      modifies this
      ensures users == Apply(old(users), Login(username, password))
      ensures ok <==> username in old(users) && old(users)[username].password == password
      ensures ok ==> users == old(users)[username := old(users)[username].(isLogin := true)]
      ensures !ok ==> users == old(users)
    {
      ok := false;
      if username in users {
        if users[username].password == password {
          users := users[username := users[username].(isLogin := true)];
          ok := true;
        }
      }
    }

    method LogOutUser(username: string, junk: int)
      modifies this
      ensures users == Apply(old(users), LogOut(username, junk))
      ensures !IsLogin(users, username)
      ensures users.Keys == old(users).Keys + {username}
      ensures forall name | name in old(users) ::
                users[name] == if name == username then old(users)[name].(isLogin := false) else old(users)[name]
    {
      if username !in users {
        users := users[username := User("", "", false, junk)];
      }
      users := users[username := users[username].(isLogin := false)];
    }

    method HasUser(username: string) returns (found: bool)
      ensures found <==> username in users
    {
      found := username in users;
    }

    method LoggedIn(username: string) returns (yes: bool)
      ensures yes <==> username in users && users[username].isLogin
    {
      yes := false;
      if username in users {
        yes := users[username].isLogin;
      }
    }

    /** The account, or None where the source throws. */
    method GetUser(username: string) returns (user: Option<User>)
      ensures user == if username in users then Some(users[username]) else None
    {
      user := if username in users then Some(users[username]) else None;
    }
  }

  // ---- The table as a summary of its history ----

  function Replay(ops: seq<Op>): Users {
    if ops == [] then map[] else Apply(Replay(ops[..|ops| - 1]), ops[|ops| - 1])
  }

  /** The operation gives the name an entry if it has none. */
  predicate Creates(op: Op, name: string) { op.name == name && !op.Login? }

  predicate AddsName(op: Op, name: string) { op.Add? && op.name == name }

  /** The entry of a name after a history, told without running it. */
  ghost predicate Describes(ops: seq<Op>, name: string, password: string, fd: int) {
    || (exists i :: LastAdd(ops, name, i) && password == ops[i].password && fd == ops[i].fd)
    || (exists i :: FirstLogOut(ops, name, i) && password == "" && fd == ops[i].junk)
  }

  /** i is the last sign-up of the name. */
  ghost predicate LastAdd(ops: seq<Op>, name: string, i: int) {
    0 <= i < |ops| && AddsName(ops[i], name) && forall j :: i < j < |ops| ==> !AddsName(ops[j], name)
  }

  /** The name was never signed up, and i is its first log-out. */
  ghost predicate FirstLogOut(ops: seq<Op>, name: string, i: int) {
    && 0 <= i < |ops| && Creates(ops[i], name)
    && (forall j :: 0 <= j < i ==> !Creates(ops[j], name))
    && (forall j :: 0 <= j < |ops| ==> !AddsName(ops[j], name))
  }

  /** Operation i logged the name in with this password, on an entry that was there, and no sign-up
      or log-out of the name came later. */
  ghost predicate LoggedInBy(ops: seq<Op>, name: string, password: string, i: int) {
    && 0 <= i < |ops| && ops[i] == Login(name, password)
    && (exists j :: 0 <= j < i && Creates(ops[j], name))
    && (forall j :: i < j < |ops| ==> !Creates(ops[j], name))
  }

  lemma EntryStep(p: seq<Op>, op: Op, name: string)
    ensures (exists i :: 0 <= i < |p + [op]| && Creates((p + [op])[i], name))
       <==> (exists i :: 0 <= i < |p| && Creates(p[i], name)) || Creates(op, name)
  {
    var ops := p + [op];
    if i :| 0 <= i < |p| && Creates(p[i], name) {
      assert Creates(ops[i], name);
    }
    if Creates(op, name) {
      assert Creates(ops[|p|], name);
    }
  }

  lemma DescribesKept(p: seq<Op>, op: Op, name: string, password: string, fd: int)
    requires Describes(p, name, password, fd) && !AddsName(op, name)
    ensures Describes(p + [op], name, password, fd)
  {
    var ops := p + [op];
    if i :| LastAdd(p, name, i) && password == p[i].password && fd == p[i].fd {
      assert LastAdd(ops, name, i);
    } else {
      var i :| FirstLogOut(p, name, i) && password == "" && fd == p[i].junk;
      assert FirstLogOut(ops, name, i);
    }
  }

  lemma DescribesStep(p: seq<Op>, op: Op, name: string, before: Users, after: Users)
    requires after == Apply(before, op) && name in after
    requires name in before <==> exists i :: 0 <= i < |p| && Creates(p[i], name)
    requires name in before ==> Describes(p, name, before[name].password, before[name].socketFd)
    ensures Describes(p + [op], name, after[name].password, after[name].socketFd)
  {
    var ops := p + [op];
    if AddsName(op, name) {
      assert LastAdd(ops, name, |p|);
    } else if name in before {
      DescribesKept(p, op, name, before[name].password, before[name].socketFd);
    } else {
      assert FirstLogOut(ops, name, |p|);
    }
  }

  lemma LoginStep(p: seq<Op>, op: Op, name: string, before: Users, after: Users)
    requires after == Apply(before, op) && name in after
    requires name in before <==> exists i :: 0 <= i < |p| && Creates(p[i], name)
    requires name in before ==> (before[name].isLogin <==> exists i :: LoggedInBy(p, name, before[name].password, i))
    ensures after[name].isLogin <==> exists i :: LoggedInBy(p + [op], name, after[name].password, i)
  {
    var ops, password := p + [op], after[name].password;
    if Creates(op, name) {
      assert ops[|p|] == op;
    } else {
      assert password == before[name].password;
      if i :| LoggedInBy(p, name, password, i) {
        var j :| 0 <= j < i && Creates(p[j], name);
        assert Creates(ops[j], name);
        assert LoggedInBy(ops, name, password, i);
      }
      if i :| 0 <= i < |p| && LoggedInBy(ops, name, password, i) {
        var j :| 0 <= j < i && Creates(ops[j], name);
        assert Creates(p[j], name);
        assert forall j :: i < j < |p| ==> p[j] == ops[j];
        assert LoggedInBy(p, name, password, i);
      }
      if op == Login(name, password) {
        var j :| 0 <= j < |p| && Creates(p[j], name);
        assert Creates(ops[j], name);
        assert LoggedInBy(ops, name, password, |p|);
      }
    }
  }

  /** The table after any history: a name has an entry exactly when it was signed up or logged out
      once; its password and descriptor are those of its last sign-up, or an empty password and
      chance if a log-out made it; and it is logged in exactly when a log-in with that password has
      come since its last sign-up or log-out. */
  lemma {:induction false} ReplayMeans(ops: seq<Op>, name: string)
    ensures var users := Replay(ops);
      && (name in users <==> exists i :: 0 <= i < |ops| && Creates(ops[i], name))
      && (name in users ==>
            && Describes(ops, name, users[name].password, users[name].socketFd)
            && (users[name].isLogin <==> exists i :: LoggedInBy(ops, name, users[name].password, i)))
  {
    if ops != [] {
      var k := |ops| - 1;
      var p, op := ops[..k], ops[k];
      ReplayMeans(p, name);
      var before, after := Replay(p), Replay(ops);
      assert ops == p + [op];
      EntryStep(p, op, name);
      if name in after {
        DescribesStep(p, op, name, before, after);
        LoginStep(p, op, name, before, after);
      }
    }
  }

  // ---- Whether a log-in lasts ----

  /** At or after position from, operation i was the last to sign the name up or log it out, and no
      log-in with this password came later. */
  ghost predicate LoggedOutBy(ops: seq<Op>, from: nat, name: string, password: string, i: int) {
    && from <= i < |ops| && Creates(ops[i], name)
    && (forall j :: i < j < |ops| ==> !Creates(ops[j], name) && ops[j] != Login(name, password))
  }

  lemma LoggedOutStep(p: seq<Op>, op: Op, from: nat, name: string, password: string)
    requires from <= |p|
    ensures (exists i :: LoggedOutBy(p + [op], from, name, password, i))
       <==> Creates(op, name)
            || (op != Login(name, password) && exists i :: LoggedOutBy(p, from, name, password, i))
  {
    var ops := p + [op];
    assert ops[|p|] == op;
    assert forall j :: 0 <= j < |p| ==> ops[j] == p[j];
    if Creates(op, name) {
      assert LoggedOutBy(ops, from, name, password, |p|);
    } else if i :| LoggedOutBy(ops, from, name, password, i) {
      assert LoggedOutBy(p, from, name, password, i);
    } else if i :| LoggedOutBy(p, from, name, password, i) {
      assert op == Login(name, password) || LoggedOutBy(ops, from, name, password, i);
    }
  }

  /** A name that is logged in stays so exactly as long as it is not signed up again or logged out
      without logging in afterwards with the password it then has. */
  lemma {:induction false} LogInLasts(ops: seq<Op>, from: nat, name: string)
    requires from <= |ops| && IsLogin(Replay(ops[..from]), name)
    ensures var users := Replay(ops);
      && name in users
      && (!users[name].isLogin <==> exists i :: LoggedOutBy(ops, from, name, users[name].password, i))
  {
    if from == |ops| {
      assert ops[..from] == ops;
    } else {
      var k := |ops| - 1;
      var p, op := ops[..k], ops[k];
      assert p[..from] == ops[..from];
      LogInLasts(p, from, name);
      assert ops == p + [op];
      LoggedOutStep(p, op, from, name, Replay(ops)[name].password);
    }
  }
}
