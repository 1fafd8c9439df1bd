/** The client: what it prints to the server, and how its listener reacts to what the server pushes. */
module Client {
  import opened Text
  import opened Wire
  import opened Buffers
  import Relay

  /** Sign-up or log-in, by menu option, printed into the outgoing buffer. */
  method PrintSignUpOrLogin(option: int, username: string, password: string, message: array<char>)
    requires |TwoWordText("SIGNUP", username, password)| < message.Length
    modifies message
    ensures var text := (if option == 1 then "SIGNUP" else "LOGIN") + " " + username + " " + password;
      |text| < message.Length && message[..] == Frame(text, message.Length)
  {
    var state := if option == 1 then "SIGNUP" else "LOGIN";
    assert |TwoWordText(state, username, password)| <= |TwoWordText("SIGNUP", username, password)|;
    Print(message, state + " " + username + " " + password);
  }

  // ---- The listener ----

  /** What the listener does with one message: stop, answer an invitation, take an answer, or nothing. */
  datatype Reaction = Stop | Reply(remoteSdp: string, text: string) | Take(remoteSdp: string) | Ignore

  /** An INVITE or ACCEPT whose description starts within the message. */
  predicate WellFormed(msg: string) {
    && ("INVITE" <= msg ==> |FirstWord(msg[6..])| < 50 && Named(msg, 6).Some?)
    && ("ACCEPT" <= msg ==> Accepted(msg).Some?)
  }

  function React(msg: string, localSdp: string): Reaction
    requires WellFormed(msg)
  {
    if msg == "" || "EXIT" <= msg then Stop
    else if "INVITE" <= msg then Reply(Named(msg, 6).value.1, AcceptText(localSdp))
    else if "ACCEPT" <= msg then Take(Accepted(msg).value)
    else Ignore
  }

  class Listener {
    const localSdp: string
    var remoteSdp: string

    constructor (localSdp: string)
      ensures this.localSdp == localSdp && remoteSdp == ""
    {
      this.localSdp, remoteSdp := localSdp, "";
    }

    /** One turn of the listener's loop. answer is the buffer an ACCEPT is printed into. */
    method OnMessage(buffer: array<char>, answer: array<char>) returns (goOn: bool, replied: bool)
      requires NUL in buffer[..] && WellFormed(CStr(buffer[..]))
      requires answer != buffer && |AcceptText(localSdp)| < answer.Length
      modifies this`remoteSdp, answer
      ensures var r := React(CStr(old(buffer[..])), localSdp);
        && goOn == !r.Stop?
        && replied == r.Reply?
        && remoteSdp == (if r.Reply? || r.Take? then r.remoteSdp else old(remoteSdp))
        && answer[..] == (if r.Reply? then Frame(r.text, answer.Length) else old(answer[..]))
    {
      goOn, replied := true, false;
      ghost var msg := CStr(buffer[..]);
      var len := Strlen(buffer);
      var isExit := StartsWith(buffer, "EXIT");
      var isInvite := StartsWith(buffer, "INVITE");
      var isAccept := StartsWith(buffer, "ACCEPT");
      if len == 0 || isExit {
        goOn := false;
      } else if isInvite {
        remoteSdp := ReadInvite(buffer);
        Print(answer, "ACCEPT " + localSdp);
        replied := true;
      } else if isAccept {
        var sdp := new char[buffer.Length](_ => NUL);
        CopyTail(buffer, 7, sdp);
        CStrOfFrame(msg[7..], sdp.Length);
        var n := Strlen(sdp);
        remoteSdp := sdp[..n];
      }
    }

    method ReadInvite(buffer: array<char>) returns (sdp: string)
      requires NUL in buffer[..] && "INVITE" <= CStr(buffer[..]) && WellFormed(CStr(buffer[..]))
      ensures sdp == Named(CStr(buffer[..]), 6).value.1
    {
      var user, remote := new char[50](_ => NUL), new char[buffer.Length](_ => NUL);
      assert user[0] == NUL;
      IndexOfIs(user[..], NUL, 0);
      ParseNamed(buffer, 6, user, remote);
      var n := Strlen(remote);
      sdp := remote[..n];
    }
  }

  // ---- The listener of the relay model is this one ----

  /** The text of each message the server pushes. */
  function PushText(p: Relay.Push): string {
    match p
    case Hello => "Hello from new server\n"
    case Invite(callee, sdp) => NamedText("INVITE", callee, sdp)
    case Blank => ""
    case Answer(sdp) => AcceptText(sdp)
    case Bye => "EXIT"
  }

  lemma ReactToPush(p: Relay.Push, localSdp: string)
    requires p.Invite? ==> SpaceFree(p.callee) && 0 < |p.callee| < 50
    ensures WellFormed(PushText(p))
    ensures React(PushText(p), localSdp) ==
      match p
      case Hello => Ignore
      case Invite(_, sdp) => Reply(sdp, AcceptText(localSdp))
      case Blank => Stop
      case Answer(sdp) => Take(sdp)
      case Bye => Stop
  {
    var msg := PushText(p);
    match p
    case Invite(callee, sdp) =>
      assert msg[0] == 'I' && msg[..6] == "INVITE";
      NamedRoundTrip("INVITE", callee, sdp);
    case Answer(sdp) =>
      assert msg[0] == 'A' && msg[..6] == "ACCEPT";
      AcceptRoundTrip(sdp);
    case Hello => assert msg[0] == 'H';
    case _ =>
  }

  /** A listener's step in the relay model is its reaction to the text of the message: it stops exactly
      when the code stops, and it answers, with its own description, exactly when the code prints an
      ACCEPT of it, and it hears an answer exactly when the code takes the description of one. */
  lemma ListenIsReaction(c: Relay.Channel)
    requires c.listening && c.toClient != []
    requires c.toClient[0].Invite? ==> SpaceFree(c.toClient[0].callee) && 0 < |c.toClient[0].callee| < 50
    ensures var text := PushText(c.toClient[0]);
      && WellFormed(text)
      && var r, after := React(text, c.localSdp), c.Listen();
      && (r.Stop? <==> !after.listening)
      && (r.Stop? || after.toClient == c.toClient[1..])
      && after.heard == (if r.Take? then c.heard + [r.remoteSdp] else c.heard)
      && (if r.Reply? then after.toServer == c.toServer + [c.localSdp] && Accepted(r.text) == Some(c.localSdp)
          else after.toServer == c.toServer)
  {
    ReactToPush(c.toClient[0], c.localSdp);
    AcceptRoundTrip(c.localSdp);
  }
}
