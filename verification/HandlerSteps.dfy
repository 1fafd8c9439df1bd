/** The threads of the relay model are the server's handler: what the code does with each message is
    what the model's step does. */
module HandlerSteps {
  import opened Text
  import opened Wire
  import opened Accounts
  import opened Server
  import opened Frames
  import Client
  import Relay

  /** The step of an account request, as the connection's thread t makes it. */
  function RequestStep(k: Keyword, msg: string, t: nat, junk: int): Relay.Step
    requires k == SignUp || k == Wire.Login || k == Wire.LogOut
  {
    var (name, password) := Credentials(Some(k), msg);
    match k
    case SignUp => Relay.SignUp(t, name, password)
    case Login => Relay.LogIn(t, name, password)
    case _ => Relay.Step.LogOut(t, junk)
  }

  /** The bytes of a SIGNUP, LOGIN or LOGOUT have on the table and the connection's name exactly the
      effect of the model's step, and no other. */
  lemma RequestIsStep(strict: bool, s: Relay.State, t: nat, k: Keyword, msg: string, junk: int)
    requires Relay.At(s, t, Relay.Idle) && junk < 0 && (k == SignUp || k == Wire.Login || k == Wire.LogOut)
    ensures var step, thread := RequestStep(k, msg, t, junk), s.threads[t];
      && Relay.Enabled(s, step)
      && Relay.Next(strict, s, step)
         == s.(users := Effect(s.users, Some(k), msg, thread.name, thread.fd, junk),
               threads := s.threads[t := thread.(name := NameAfter(Some(k), msg, thread.name))])
  {
    assert s.threads[t := s.threads[t]] == s.threads;
  }

  function Texts(pushes: seq<Relay.Push>): seq<string> {
    seq(|pushes|, i requires 0 <= i < |pushes| => Client.PushText(pushes[i]))
  }

  /** The bytes of the INVITE that the handler prints, read in full frames, are the two messages that
      the model's strict step puts on a listening client's channel. */
  lemma InviteIsStep(s: Relay.State, t: nat)
    requires Relay.Enabled(s, Relay.SendInvite(t)) && s.Connected(s.threads[t].pc.to)
    requires var pc := s.threads[t].pc;
      && s.channels[pc.to].listening && NUL !in pc.callee && NUL !in pc.sdp
      && |NamedText("INVITE", pc.callee, pc.sdp)| < BUFFER_SIZE
    ensures var pc, s' := s.threads[t].pc, Relay.Next(true, s, Relay.SendInvite(t));
      var before, after := s.channels[pc.to].toClient, s'.channels[pc.to].toClient;
      && before <= after
      && Texts(after[|before|..]) == ReadFrames(InviteStream(pc.callee, pc.sdp))
  {
    var pc := s.threads[t].pc;
    var before := s.channels[pc.to].toClient;
    var pushes := [Relay.Invite(pc.callee, pc.sdp), Relay.Blank];
    InviteIsTwoFrames(pc.callee, pc.sdp);
    assert [Relay.Invite(pc.callee, pc.sdp)] + [Relay.Blank] == pushes;
    assert (before + pushes)[|before|..] == pushes;
    assert Texts(pushes) == [NamedText("INVITE", pc.callee, pc.sdp), ""];
  }

  /** An answer is taken as an ACCEPT and passed on as the message it came in; the empty buffer of a failed
      recv is not, and the handler goes on with the next request. */
  lemma AnswerIsStep(strict: bool, s: Relay.State, t: nat)
    requires t < |s.threads| && s.threads[t].pc.Waiting?
    ensures Relay.Enabled(s, Relay.Receive(t)) ==>
      var fd := s.threads[t].pc.on;
      var sdp := s.channels[fd].toServer[0];
      && "ACCEPT" <= FirstWord(AcceptText(sdp))
      && Relay.Next(strict, s, Relay.Receive(t)).threads[t].pc == Relay.Answering(fd, sdp)
      && Client.PushText(Relay.Answer(sdp)) == AcceptText(sdp)
    ensures !("ACCEPT" <= FirstWord(""))
    ensures Relay.Enabled(s, Relay.HangUp(t)) ==> Relay.Next(strict, s, Relay.HangUp(t)).threads[t].pc == Relay.Idle
  {
    if Relay.Enabled(s, Relay.Receive(t)) {
      var sdp := s.channels[s.threads[t].pc.on].toServer[0];
      AcceptRoundTrip(sdp);
    }
  }

  /** The message asks for this, and the handler can take it. */
  ghost predicate AsksFor(msg: string, option: int, name: string, password: string) {
    && KeywordOf(msg) == Some(if option == 1 then SignUp else Wire.Login)
    && Credentials(KeywordOf(msg), msg) == (name, password)
    && WordsFit(msg)
  }

  predicate Sendable(name: string, password: string) {
    && SpaceFree(name) && SpaceFree(password) && NUL !in name && NUL !in password
    && 0 < |name| < 50 && |password| < 50
  }

  lemma PrintedAsksFor(buffer: seq<char>, option: int, name: string, password: string)
    requires Sendable(name, password) && |"SIGNUP" + " " + name + " " + password| < BUFFER_SIZE
    requires buffer == Frame((if option == 1 then "SIGNUP" else "LOGIN") + " " + name + " " + password, BUFFER_SIZE)
    ensures NUL in buffer && AsksFor(CStr(buffer), option, name, password)
  {
    var text := (if option == 1 then "SIGNUP" else "LOGIN") + " " + name + " " + password;
    assert NUL !in text;
    CredentialsSent(buffer, option, name, password);
    CStrOfFrame(text, BUFFER_SIZE);
    WordsOfRequest(CStr(buffer), option, name, password);
  }

  method PrintRequest(option: int, name: string, password: string) returns (buffer: array<char>)
    requires Sendable(name, password)
    ensures fresh(buffer) && NUL in buffer[..] && AsksFor(CStr(buffer[..]), option, name, password)
  {
    buffer := new char[BUFFER_SIZE];
    Client.PrintSignUpOrLogin(option, name, password, buffer);
    PrintedAsksFor(buffer[..], option, name, password);
  }

  /** One request of the client and what the server makes of it, byte by byte: the client prints SIGNUP
      or LOGIN into a zeroed buffer, and the handler parses that buffer and acts. */
  method Request(option: int, name: string, password: string, handler: ClientHandler, junk: int)
    requires Sendable(name, password)
    modifies handler`username, handler.store
    ensures handler.username == name
    ensures handler.store.users
         == if option == 1 then old(handler.store.users)[name := User(name, password, false, handler.clientFd)]
            else Apply(old(handler.store.users), Op.Login(name, password))
  {
    var buffer := PrintRequest(option, name, password);
    ghost var msg, users, held, fd := CStr(buffer[..]), handler.store.users, handler.username, handler.clientFd;
    AskedEffect(users, msg, option, name, password, held, fd, junk);
    var reply := handler.Handle(buffer, junk);
    assert handler.store.users == Effect(users, KeywordOf(msg), msg, held, fd, junk);
  }

  lemma AskedEffect(users: Users, msg: string, option: int, name: string, password: string,
      held: string, fd: int, junk: int)
    requires AsksFor(msg, option, name, password)
    ensures Effect(users, KeywordOf(msg), msg, held, fd, junk)
         == if option == 1 then users[name := User(name, password, false, fd)]
            else Apply(users, Op.Login(name, password))
    ensures NameAfter(KeywordOf(msg), msg, held) == name
  {
    RequestEffect(users, KeywordOf(msg).value, msg, name, password, held, fd, junk);
  }

  lemma RequestEffect(users: Users, k: Keyword, msg: string, name: string, password: string,
      held: string, fd: int, junk: int)
    requires (k == SignUp || k == Wire.Login) && Credentials(Some(k), msg) == (name, password)
    ensures Effect(users, Some(k), msg, held, fd, junk)
         == Apply(users, if k == SignUp then Add(name, password, fd) else Op.Login(name, password))
    ensures NameAfter(Some(k), msg, held) == name
  {
  }

  lemma WordsOfRequest(msg: string, option: int, name: string, password: string)
    requires KeywordOf(msg) == Some(if option == 1 then SignUp else Wire.Login)
    requires Credentials(KeywordOf(msg), msg) == (name, password) && |name| < 50 && |password| < 50
    ensures WordsFit(msg)
  {
    KeywordOfIff(msg, SignUp);
    KeywordOfIff(msg, Wire.Login);
  }
}
