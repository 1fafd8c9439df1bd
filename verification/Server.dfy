/** The server's handler of one connection: from the bytes of a request to the table of accounts and
    the steps of a call. */
module Server {
  import opened Text
  import opened Wire
  import opened Buffers
  import opened Accounts
  import Relay

  /** Room for a name or a password, terminator included. */
  const WORD_SIZE: nat := 50

  /** The keyword a message starts with. */
  ghost function KeywordOf(msg: string): Option<Keyword> {
    if exists k: Keyword :: KeywordText(k) <= msg then
      var k: Keyword :| KeywordText(k) <= msg;
      Some(k)
    else None
  }

  lemma KeywordOfIff(msg: string, k: Keyword)
    ensures KeywordOf(msg) == Some(k) <==> KeywordText(k) <= msg
  {
    if KeywordText(k) <= msg {
      KeywordsExclude(k, KeywordOf(msg).value, msg);
    }
  }

  /** The server's chain of comparisons finds the keyword, as any other order of it would. */
  lemma ServerOrderFinds(order: seq<Keyword>, msg: string)
    requires forall k: Keyword :: k in order
    ensures Dispatch(order, msg) == KeywordOf(msg)
  {
    var d := Dispatch(order, msg);
    DispatchFinds(order, msg);
    if d.Some? {
      KeywordOfIff(msg, d.value);
    } else if exists k: Keyword :: KeywordText(k) <= msg {
      var k: Keyword :| KeywordText(k) <= msg;
      DispatchInAnyOrder(order, msg, k);
    }
  }

  /** The two words of a message fit their buffers. */
  predicate TwoWordsFit(msg: string, keyword: nat)
    requires keyword <= |msg|
  {
    |TwoWords(msg, keyword).0| < WORD_SIZE && |TwoWords(msg, keyword).1| < WORD_SIZE
  }

  /** What the handler asks of a request, to stay inside its buffers. */
  predicate WordsFit(msg: string) {
    && (KeywordText(SignUp) <= msg ==> TwoWordsFit(msg, 6))
    && (KeywordText(Wire.Login) <= msg ==> TwoWordsFit(msg, 5))
  }

  /** The name and password a request carries. */
  function Credentials(k: Option<Keyword>, msg: string): (string, string) {
    if k == Some(SignUp) && 6 <= |msg| then TwoWords(msg, 6)
    else if k == Some(Wire.Login) && 5 <= |msg| then TwoWords(msg, 5)
    else ("", "")
  }

  /** What a request does to the table, given the connection's descriptor and the name it last used. */
  function Effect(users: Users, k: Option<Keyword>, msg: string, username: string, fd: int, junk: int): Users {
    var (name, password) := Credentials(k, msg);
    match k
    case Some(SignUp) => Apply(users, Add(name, password, fd))
    case Some(Login) => Apply(users, Op.Login(name, password))
    case Some(LogOut) => Apply(users, Op.LogOut(username, junk))
    case _ => users
  }

  /** The name the connection goes by afterwards: set by every SIGNUP and LOGIN, successful or not. */
  function NameAfter(k: Option<Keyword>, msg: string, username: string): string {
    if k == Some(SignUp) || k == Some(Wire.Login) then Credentials(k, msg).0 else username
  }

  function Reply(k: Option<Keyword>): Option<string> {
    match k
    case Some(SignUp) => Some("Signup is successful\n")
    case Some(Login) => Some("Login is successful\n")
    case Some(LogOut) => Some("Logout is successful\n")
    case _ => None
  }

  class ClientHandler {
    const store: UserStore
    var username: string
    var clientFd: int

    constructor (store: UserStore)
      ensures this.store == store && username == "" && clientFd == -1
    {
      this.store, username, clientFd := store, "", -1;
    }

    /** CLIENT: the socket for the connection back is kept whether or not connecting succeeds; the
        handler goes on only if it does. */
    method ConnectBack(fd: int, connected: bool) returns (goOn: bool)
      modifies this`clientFd
      ensures clientFd == fd && goOn == connected
    {
      clientFd := fd;
      goOn := connected;
    }

    /** Reads two words out of a request, through buffers of fixed size. */
    method ReadCredentials(buffer: array<char>, keyword: nat) returns (name: string, password: string)
      requires NUL in buffer[..] && keyword <= |CStr(buffer[..])|
      requires |TwoWords(CStr(buffer[..]), keyword).0| < WORD_SIZE
      requires |TwoWords(CStr(buffer[..]), keyword).1| < WORD_SIZE
      ensures (name, password) == TwoWords(CStr(buffer[..]), keyword)
    {
      var first, second := new char[WORD_SIZE](_ => NUL), new char[WORD_SIZE](_ => NUL);
      assert first[0] == NUL && second[0] == NUL;
      IndexOfIs(first[..], NUL, 0);
      IndexOfIs(second[..], NUL, 0);
      ParseTwoWords(buffer, keyword, first, second);
      name := ToString(first);
      password := ToString(second);
    }

    /** The chain of comparisons that finds a request's handler. */
    method FindHandler(buffer: array<char>) returns (k: Option<Keyword>)
      requires NUL in buffer[..]
      ensures k == KeywordOf(CStr(buffer[..]))
    {
      ghost var msg := CStr(buffer[..]);
      var isClient := StartsWith(buffer, KeywordText(Client));
      var isSignUp := StartsWith(buffer, KeywordText(SignUp));
      var isLogin := StartsWith(buffer, KeywordText(Wire.Login));
      var isCall := StartsWith(buffer, KeywordText(Call));
      var isLogOut := StartsWith(buffer, KeywordText(Wire.LogOut));
      var isExit := StartsWith(buffer, KeywordText(Exit));
      if isClient { k := Some(Client); }
      else if isSignUp { k := Some(SignUp); }
      else if isLogin { k := Some(Wire.Login); }
      else if isCall { k := Some(Call); }
      else if isLogOut { k := Some(Wire.LogOut); }
      else if isExit { k := Some(Exit); }
      else { k := None; }
      if k.Some? {
        KeywordOfIff(msg, k.value);
      }
    }

    method SignUpHere(buffer: array<char>)
      requires NUL in buffer[..] && 6 <= |CStr(buffer[..])| && TwoWordsFit(CStr(buffer[..]), 6)
      modifies this`username, store
      ensures var (name, password) := TwoWords(CStr(old(buffer[..])), 6);
        username == name && store.users == Apply(old(store.users), Add(name, password, clientFd))
    {
      var password;
      username, password := ReadCredentials(buffer, 6);
      store.AddUser(User(username, password, false, clientFd));
    }

    method LogInHere(buffer: array<char>)
      requires NUL in buffer[..] && 5 <= |CStr(buffer[..])| && TwoWordsFit(CStr(buffer[..]), 5)
      modifies this`username, store
      ensures var (name, password) := TwoWords(CStr(old(buffer[..])), 5);
        username == name && store.users == Apply(old(store.users), Op.Login(name, password))
    {
      var password;
      username, password := ReadCredentials(buffer, 5);
      var ok := store.LoginUser(username, password);
    }

    /** The handlers that answer at once; the others only pass through the chain here. */
    method Perform(k: Option<Keyword>, buffer: array<char>, junk: int) returns (reply: Option<string>)
      requires NUL in buffer[..] && (k.Some? ==> |KeywordText(k.value)| <= |CStr(buffer[..])|)
      requires |Credentials(k, CStr(buffer[..])).0| < WORD_SIZE && |Credentials(k, CStr(buffer[..])).1| < WORD_SIZE
      modifies this`username, store
      ensures store.users == Effect(old(store.users), k, CStr(old(buffer[..])), old(username), clientFd, junk)
      ensures username == NameAfter(k, CStr(old(buffer[..])), old(username))
      ensures reply == Reply(k)
    {
      reply := None;
      if k == Some(SignUp) {
        SignUpHere(buffer);
        reply := Some("Signup is successful\n");
      } else if k == Some(Wire.Login) {
        LogInHere(buffer);
        reply := Some("Login is successful\n");
      } else if k == Some(Wire.LogOut) {
        store.LogOutUser(username, junk);
        reply := Some("Logout is successful\n");
      }
    }

    /** The callee and the caller's description, out of a CALL. */
    method ReadCall(buffer: array<char>) returns (callee: string, sdp: string)
      requires NUL in buffer[..] && 4 <= |CStr(buffer[..])| && Named(CStr(buffer[..]), 4).Some?
      requires |FirstWord(CStr(buffer[..])[4..])| < WORD_SIZE
      ensures Some((callee, sdp)) == Named(CStr(buffer[..]), 4)
    {
      var name, description := new char[WORD_SIZE](_ => NUL), new char[buffer.Length](_ => NUL);
      assert name[0] == NUL;
      IndexOfIs(name[..], NUL, 0);
      ParseNamed(buffer, 4, name, description);
      callee := ToString(name);
      sdp := ToString(description);
    }

    /** Whether what came back from the callee is an ACCEPT; an empty buffer, left by a failed recv, is not. */
    method ReadAnswer(incoming: array<char>) returns (accepted: bool)
      requires NUL in incoming[..] && |FirstWord(CStr(incoming[..]))| < WORD_SIZE
      ensures accepted <==> "ACCEPT" <= FirstWord(CStr(incoming[..]))
    {
      var command := new char[WORD_SIZE](_ => NUL);
      assert command[0] == NUL;
      IndexOfIs(command[..], NUL, 0);
      assert CStr(incoming[..])[0..] == CStr(incoming[..]);
      var next, ok := ScanWord(incoming, 0, command);
      accepted := StartsWith(command, "ACCEPT");
    }

    // ---- The steps of a CALL ----

    /** CALL: parses the message and looks whether the callee is logged in. */
    method TakeCall(buffer: array<char>) returns (pc: Relay.Pc)
      requires NUL in buffer[..] && 4 <= |CStr(buffer[..])| && Named(CStr(buffer[..]), 4).Some?
      requires |FirstWord(CStr(buffer[..])[4..])| < WORD_SIZE
      ensures var (callee, sdp) := Named(CStr(buffer[..]), 4).value; pc == Relay.AfterLogin(store.users, callee, sdp)
    {
      var callee, sdp := ReadCall(buffer);
      var yes := store.LoggedIn(callee);
      pc := if yes then Relay.SawLogin(callee, sdp) else Relay.Idle;
    }

    method CheckCallee(callee: string, sdp: string) returns (pc: Relay.Pc)
      ensures pc == Relay.AfterCheck(store.users, callee, sdp)
    {
      var found := store.HasUser(callee);
      pc := if found then Relay.SawUser(callee, sdp) else Relay.Idle;
    }

    /** A failed look-up throws, and the handler goes on with the next request. */
    method FetchCallee(callee: string, sdp: string) returns (pc: Relay.Pc)
      ensures pc == Relay.AfterFetch(store.users, callee, sdp)
    {
      var user := store.GetUser(callee);
      match user
      case Some(u) => pc := Relay.Inviting(u.socketFd, callee, sdp);
      case None => pc := Relay.Idle;
    }

    /** Prints the INVITE into its buffer of two frames. */
    method PrintInvite(callee: string, sdp: string, message: array<char>)
      requires |NamedText("INVITE", callee, sdp)| < message.Length == 2 * BUFFER_SIZE
      modifies message
      ensures message[..] == Frame(NamedText("INVITE", callee, sdp), 2 * BUFFER_SIZE)
    {
      Print(message, "INVITE " + callee + " " + sdp);
    }

    /** One request: the bytes received decide the handler, and the handler acts on them. */
    method Handle(buffer: array<char>, junk: int) returns (reply: Option<string>)
      requires NUL in buffer[..] && WordsFit(CStr(buffer[..]))
      modifies this`username, store
      ensures var msg := CStr(old(buffer[..]));
        && store.users == Effect(old(store.users), KeywordOf(msg), msg, old(username), clientFd, junk)
        && username == NameAfter(KeywordOf(msg), msg, old(username))
        && reply == Reply(KeywordOf(msg))
    {
      var k := FindHandler(buffer);
      if k.Some? {
        KeywordOfIff(CStr(buffer[..]), k.value);
      }
      reply := Perform(k, buffer, junk);
    }
  }

  /** The std::string made of a terminated buffer. */
  method ToString(buffer: array<char>) returns (s: string)
    requires NUL in buffer[..]
    ensures s == CStr(buffer[..])
  {
    var len := Strlen(buffer);
    s := buffer[..len];
  }

  lemma KeywordSent(k: Keyword, rest: string)
    ensures KeywordOf(KeywordText(k) + rest) == Some(k)
  {
    var msg := KeywordText(k) + rest;
    assert msg[..|KeywordText(k)|] == KeywordText(k);
    KeywordOfIff(msg, k);
  }

  lemma WordsSent(k: Keyword, name: string, password: string)
    requires k == SignUp || k == Wire.Login
    requires SpaceFree(name) && SpaceFree(password) && name != ""
    ensures Credentials(Some(k), TwoWordText(KeywordText(k), name, password)) == (name, password)
  {
    TwoWordsRoundTrip(KeywordText(k), name, password);
    LongEnough(KeywordText(k), name, password);
    if k == SignUp {
      assert |KeywordText(SignUp)| == 6;
    } else {
      assert |KeywordText(Wire.Login)| == 5;
    }
  }

  lemma LongEnough(keyword: string, a: string, b: string)
    ensures |TwoWordText(keyword, a, b)| >= |keyword|
  {
  }

  /** What the client prints for each request reaches the handler of that request. */
  lemma PrintedRequests(a: string, b: string)
    ensures KeywordOf("CLIENT" + " " + a + " " + b) == Some(Client)
    ensures KeywordOf("SIGNUP" + " " + a + " " + b) == Some(SignUp)
    ensures KeywordOf("LOGIN" + " " + a + " " + b) == Some(Wire.Login)
    ensures KeywordOf("CALL" + " " + a + " " + b) == Some(Call)
    ensures KeywordOf("LOGOUT" + " " + a) == Some(Wire.LogOut)
    ensures KeywordOf("EXIT EXIT") == Some(Exit)
  {
    var rest := " " + a + " " + b;
    KeywordSent(Client, rest);
    TwoWordTail("CLIENT", a, b);
    KeywordSent(SignUp, rest);
    TwoWordTail("SIGNUP", a, b);
    KeywordSent(Wire.Login, rest);
    TwoWordTail("LOGIN", a, b);
    KeywordSent(Call, rest);
    TwoWordTail("CALL", a, b);
    KeywordSent(Wire.LogOut, " " + a);
    assert "LOGOUT" + " " + a == "LOGOUT" + (" " + a);
    KeywordSent(Exit, " EXIT");
    assert "EXIT EXIT" == "EXIT" + " EXIT";
  }

  /** The buffer the client leaves for menu option 1, and for the other. */
  ghost predicate IsPrinted(buffer: seq<char>, option: int, name: string, password: string) {
    var text := (if option == 1 then "SIGNUP" else "LOGIN") + " " + name + " " + password;
    NUL !in text && |text| < BUFFER_SIZE && buffer == Frame(text, BUFFER_SIZE)
  }

  /** What the handler takes from the buffer of a SIGNUP or LOGIN is what the client put into it. */
  lemma CredentialsSent(buffer: seq<char>, option: int, name: string, password: string)
    requires IsPrinted(buffer, option, name, password)
    requires SpaceFree(name) && SpaceFree(password) && name != ""
    ensures var msg := CStr(buffer);
      && KeywordOf(msg) == Some(if option == 1 then SignUp else Wire.Login)
      && Credentials(KeywordOf(msg), msg) == (name, password)
  {
    PrintedRequests(name, password);
    if option == 1 {
      CStrOfFrame("SIGNUP" + " " + name + " " + password, BUFFER_SIZE);
      WordsSent(SignUp, name, password);
    } else {
      CStrOfFrame("LOGIN" + " " + name + " " + password, BUFFER_SIZE);
      WordsSent(Wire.Login, name, password);
    }
  }

  /** A client that signs up and logs in with the same words, as its prompt reads them, is logged in. */
  lemma SignUpThenLogin(users: Users, name: string, password: string, held: string, fd: int, junk: int,
      signUp: seq<char>, login: seq<char>)
    requires SpaceFree(name) && SpaceFree(password) && name != ""
    requires IsPrinted(signUp, 1, name, password) && IsPrinted(login, 2, name, password)
    ensures var first, second := CStr(signUp), CStr(login);
      && Effect(Effect(users, KeywordOf(first), first, held, fd, junk), KeywordOf(second), second, name, fd, junk)
         == users[name := User(name, password, true, fd)]
      && NameAfter(KeywordOf(first), first, held) == NameAfter(KeywordOf(second), second, name) == name
  {
    CredentialsSent(signUp, 1, name, password);
    CredentialsSent(login, 2, name, password);
    BothRequests(users, name, password, held, fd, junk, CStr(signUp), CStr(login));
  }

  lemma BothRequests(users: Users, name: string, password: string, held: string, fd: int, junk: int,
      first: string, second: string)
    requires Credentials(Some(SignUp), first) == Credentials(Some(Wire.Login), second) == (name, password)
    ensures Effect(Effect(users, Some(SignUp), first, held, fd, junk), Some(Wire.Login), second, name, fd, junk)
         == users[name := User(name, password, true, fd)]
    ensures NameAfter(Some(SignUp), first, held) == NameAfter(Some(Wire.Login), second, name) == name
  {
    AddThenLogin(users, name, password, fd);
  }

  lemma AddThenLogin(users: Users, name: string, password: string, fd: int)
    ensures Apply(Apply(users, Add(name, password, fd)), Op.Login(name, password))
         == users[name := User(name, password, true, fd)]
  {
  }

  /** LOGOUT acts on the name the connection last tried, whatever name the message carries. */
  lemma LogOutIgnoresItsName(users: Users, named: string, held: string, fd: int, junk: int)
    ensures var msg := "LOGOUT" + " " + named;
      var after := Effect(users, KeywordOf(msg), msg, held, fd, junk);
      && after == Apply(users, Op.LogOut(held, junk))
      && !IsLogin(after, held)
      && (IsLogin(after, named) <==> IsLogin(users, named) && named != held)
      && (named != held && named in users ==> named in after && after[named] == users[named])
  {
    PrintedRequests(named, "");
  }

  // ---- What each request does ----

  /** Which handler a message reaches, by the text it starts with. */
  lemma KeywordByText(msg: string)
    ensures KeywordOf(msg) == Some(Client) <==> "CLIENT" <= msg
    ensures KeywordOf(msg) == Some(SignUp) <==> "SIGNUP" <= msg
    ensures KeywordOf(msg) == Some(Wire.Login) <==> "LOGIN" <= msg
    ensures KeywordOf(msg) == Some(Call) <==> "CALL" <= msg
    ensures KeywordOf(msg) == Some(Wire.LogOut) <==> "LOGOUT" <= msg
    ensures KeywordOf(msg) == Some(Exit) <==> "EXIT" <= msg
  {
    KeywordOfIff(msg, Client);
    KeywordOfIff(msg, SignUp);
    KeywordOfIff(msg, Wire.Login);
    KeywordOfIff(msg, Call);
    KeywordOfIff(msg, Wire.LogOut);
    KeywordOfIff(msg, Exit);
  }

  /** SIGNUP replaces the account by one that is logged out and has this connection's descriptor. */
  lemma SignUpMeans(users: Users, msg: string, held: string, fd: int, junk: int)
    requires 6 <= |msg|
    ensures var (name, password) := TwoWords(msg, 6);
      && Effect(users, Some(SignUp), msg, held, fd, junk) == users[name := User(name, password, false, fd)]
      && NameAfter(Some(SignUp), msg, held) == name
  {
  }

  /** LOGIN changes one flag, and only if the password is right; the connection's name changes anyway. */
  lemma LogInMeans(users: Users, msg: string, held: string, fd: int, junk: int)
    requires 5 <= |msg|
    ensures var (name, password) := TwoWords(msg, 5);
      && Effect(users, Some(Wire.Login), msg, held, fd, junk)
         == (if name in users && users[name].password == password
             then users[name := User(users[name].username, password, true, users[name].socketFd)] else users)
      && NameAfter(Some(Wire.Login), msg, held) == name
  {
  }

  /** LOGOUT changes one flag, or makes an entry with no name, no password and a descriptor by chance. */
  lemma LogOutMeans(users: Users, msg: string, held: string, fd: int, junk: int)
    ensures Effect(users, Some(Wire.LogOut), msg, held, fd, junk)
         == users[held := if held in users then users[held].(isLogin := false) else User("", "", false, junk)]
    ensures NameAfter(Some(Wire.LogOut), msg, held) == held
  {
  }

  lemma OthersLeaveAccounts(users: Users, k: Option<Keyword>, msg: string, held: string, fd: int, junk: int)
    requires k != Some(SignUp) && k != Some(Wire.Login) && k != Some(Wire.LogOut)
    ensures Effect(users, k, msg, held, fd, junk) == users && NameAfter(k, msg, held) == held && Reply(k) == None
  {
  }

  lemma Replies()
    ensures Reply(Some(SignUp)) == Some("Signup is successful\n")
    ensures Reply(Some(Wire.Login)) == Some("Login is successful\n")
    ensures Reply(Some(Wire.LogOut)) == Some("Logout is successful\n")
  {
  }
}
