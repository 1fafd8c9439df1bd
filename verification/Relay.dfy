/** The call relay: one server thread per connection, one push channel per client, every interleaving. */
module Relay {
  import opened Accounts
  import opened Totals

  // ---- One push channel ----

  /** What the server pushes to a client. Blank is the second, empty half of an INVITE that was sent
      from a buffer of two frames. */
  datatype Push =
    | Hello
    | Invite(callee: string, sdp: string)
    | Blank
    | Answer(sdp: string)
    | Bye

  function IsInvite(): Push -> nat { (p: Push) => if p.Invite? then 1 else 0 }

  /** The connection the server opened to a client, and the client's listener at its other end.
      toClient and toServer are the messages on their way, an answer given by its description. The
      counters say how many INVITEs were sent, answered by the listener, forwarded to their callers,
      and given up on, and how many answers were lost with the connection. heard is what the listener
      was told by the answers to its own client's calls, in order. */
  datatype Channel = Channel(toClient: seq<Push>, toServer: seq<string>, listening: bool, localSdp: string,
                             invited: nat, answered: nat, forwarded: nat, hungUp: nat, lost: nat,
                             heard: seq<string>) {

    /** Anything sent once the listener is gone is lost. */
    function Send(messages: seq<Push>): Channel {
      if listening then this.(toClient := toClient + messages) else this
    }

    /** strict: the INVITE takes two frames, as its buffer does. */
    function SendInvite(strict: bool, callee: string, sdp: string): Channel {
      Send([Invite(callee, sdp)] + (if strict then [Blank] else [])).(invited := invited + 1)
    }

    function Receive(): Channel
      requires toServer != []
    {
      this.(toServer := toServer[1..])
    }

    function CountForward(): Channel { this.(forwarded := forwarded + 1) }

    function CountHangUp(): Channel { this.(hungUp := hungUp + 1) }

    /** The listener is gone; what it had not read is lost, what it had sent may be. */
    function Close(keep: bool): Channel {
      if keep then this.(listening := false, toClient := [])
      else this.(listening := false, toClient := [], toServer := [], lost := lost + |toServer|)
    }

    /** The listener takes its next message: it answers an INVITE, stops at an empty message or at
        EXIT, and otherwise goes on. */
    function Listen(): Channel
      requires toClient != []
    {
      var rest := this.(toClient := toClient[1..]);
      match toClient[0]
      case Invite(_, _) => rest.(toServer := toServer + [localSdp], answered := answered + 1)
      case Blank => rest.Close(true)
      case Bye => rest.Close(true)
      case Answer(sdp) => rest.(heard := heard + [sdp])
      case Hello => rest
    }

    function Invites(): nat { Total(IsInvite(), toClient) }
  }

  // ---- The server's threads ----

  /** Where a thread is in its handler; all but Idle and Ended are inside the handling of a CALL. */
  datatype Pc =
    | Idle
    | SawLogin(callee: string, sdp: string)
    | SawUser(callee: string, sdp: string)
    | Inviting(to: int, callee: string, sdp: string)
    | Waiting(on: int)
    | Answering(from: int, answer: string)
    | Ended

  /** fd is the push channel of the thread's client, negative before CLIENT; name is the last name it
      tried to sign up or log in. */
  datatype Thread = Thread(fd: int, name: string, pc: Pc)

  function WaitsOn(fd: int): Thread -> nat { (t: Thread) => if t.pc == Waiting(fd) then 1 else 0 }

  function AnswersFrom(fd: int): Thread -> nat { (t: Thread) => if t.pc.Answering? && t.pc.from == fd then 1 else 0 }

  /** An answer passed on: by which thread, from which channel, and what it said. */
  datatype Forwarded = Forwarded(thread: nat, from: int, sdp: string)

  /** The server and its clients. Push channels are numbered in the order they are opened. */
  datatype State = State(users: Users, threads: seq<Thread>, channels: seq<Channel>, forwards: seq<Forwarded>) {
    predicate Connected(fd: int) { 0 <= fd < |channels| }

    function SetPc(t: nat, pc: Pc): State
      requires t < |threads|
    {
      this.(threads := threads[t := threads[t].(pc := pc)])
    }

    function SetName(t: nat, name: string): State
      requires t < |threads|
    {
      this.(threads := threads[t := threads[t].(name := name)])
    }

    function SetChannel(fd: int, c: Channel): State
      requires Connected(fd)
    {
      this.(channels := channels[fd := c])
    }

    /** Sends to a push channel; sending to a descriptor that is not one does nothing. */
    function SendTo(fd: int, messages: seq<Push>): State {
      if Connected(fd) then SetChannel(fd, channels[fd].Send(messages)) else this
    }

    function Waits(fd: int): nat { Total(WaitsOn(fd), threads) }

    function Answers(fd: int): nat { Total(AnswersFrom(fd), threads) }
  }

  const INITIAL: State := State(map[], [], [], [])

  // ---- Steps ----

  /** Where the handler of a CALL stands after each of its look-ups. */
  function AfterLogin(users: Users, callee: string, sdp: string): Pc {
    if IsLogin(users, callee) then SawLogin(callee, sdp) else Idle
  }

  function AfterCheck(users: Users, callee: string, sdp: string): Pc {
    if callee in users then SawUser(callee, sdp) else Idle
  }

  /** A failed look-up throws, and the handler goes on with the next request. */
  function AfterFetch(users: Users, callee: string, sdp: string): Pc {
    if callee in users then Inviting(users[callee].socketFd, callee, sdp) else Idle
  }

  datatype Step =
    | Accept                                             // a client connects to the server
    | Connect(t: nat, localSdp: string)                  // CLIENT: the server connects back
    | SignUp(t: nat, name: string, password: string)
    | LogIn(t: nat, name: string, password: string)
    | LogOut(t: nat, junk: int)
    | Call(t: nat, callee: string, sdp: string)          // CALL, up to the first look-up
    | CheckUser(t: nat)                                  // its second look-up
    | FetchUser(t: nat)                                  // its third
    | SendInvite(t: nat)
    | Receive(t: nat)                                    // the blocked recv returns an answer
    | HangUp(t: nat)                                     // the blocked recv fails or finds the end
    | Forward(t: nat)
    | Exit(t: nat)
    | Drop(t: nat)                                       // the client goes without EXIT
    | Listen(fd: nat)                                    // a listener handles one message
    | Crash(fd: nat, keep: bool)                         // a listener goes for any other reason
    | Lose(fd: nat)                                      // a closed connection loses what it still held

  predicate At(s: State, t: nat, pc: Pc) { t < |s.threads| && s.threads[t].pc == pc }

  predicate Enabled(s: State, step: Step) {
    match step
    case Accept => true
    case Connect(t, _) => At(s, t, Idle)
    case SignUp(t, _, _) => At(s, t, Idle)
    case LogIn(t, _, _) => At(s, t, Idle)
    case LogOut(t, junk) => At(s, t, Idle) && junk < 0
    case Call(t, _, _) => At(s, t, Idle)
    case CheckUser(t) => t < |s.threads| && s.threads[t].pc.SawLogin?
    case FetchUser(t) => t < |s.threads| && s.threads[t].pc.SawUser?
    case SendInvite(t) => t < |s.threads| && s.threads[t].pc.Inviting?
    case Receive(t) =>
      && t < |s.threads| && s.threads[t].pc.Waiting?
      && s.Connected(s.threads[t].pc.on) && s.channels[s.threads[t].pc.on].toServer != []
    case HangUp(t) =>
      && t < |s.threads| && s.threads[t].pc.Waiting?
      && (s.Connected(s.threads[t].pc.on) ==>
            !s.channels[s.threads[t].pc.on].listening && s.channels[s.threads[t].pc.on].toServer == [])
    case Forward(t) => t < |s.threads| && s.threads[t].pc.Answering?
    case Exit(t) => At(s, t, Idle)
    case Drop(t) => At(s, t, Idle)
    case Listen(fd) => fd < |s.channels| && s.channels[fd].listening && s.channels[fd].toClient != []
    case Crash(fd, _) => fd < |s.channels| && s.channels[fd].listening
    case Lose(fd) => fd < |s.channels| && !s.channels[fd].listening
  }

  function Next(strict: bool, s: State, step: Step): State
    requires Enabled(s, step)
  {
    match step
    case Accept => s.(threads := s.threads + [Thread(-1, "", Idle)])
    case Connect(t, localSdp) =>
      var c := Channel([Hello], [], true, localSdp, 0, 0, 0, 0, 0, []);
      s.(threads := s.threads[t := s.threads[t].(fd := |s.channels|)], channels := s.channels + [c])
    case SignUp(t, name, password) =>
      s.SetName(t, name).(users := Apply(s.users, Add(name, password, s.threads[t].fd)))
    case LogIn(t, name, password) =>
      s.SetName(t, name).(users := Apply(s.users, Op.Login(name, password)))
    case LogOut(t, junk) => s.(users := Apply(s.users, Op.LogOut(s.threads[t].name, junk)))
    case Call(t, callee, sdp) => s.SetPc(t, AfterLogin(s.users, callee, sdp))
    case CheckUser(t) =>
      var pc := s.threads[t].pc;
      s.SetPc(t, AfterCheck(s.users, pc.callee, pc.sdp))
    case FetchUser(t) =>
      var pc := s.threads[t].pc;
      s.SetPc(t, AfterFetch(s.users, pc.callee, pc.sdp))
    case SendInvite(t) =>
      var pc := s.threads[t].pc;
      var s' := s.SetPc(t, Waiting(pc.to));
      if s.Connected(pc.to) then s'.SetChannel(pc.to, s.channels[pc.to].SendInvite(strict, pc.callee, pc.sdp)) else s'
    case Receive(t) =>
      var fd := s.threads[t].pc.on;
      s.SetPc(t, Answering(fd, s.channels[fd].toServer[0])).SetChannel(fd, s.channels[fd].Receive())
    case HangUp(t) =>
      var fd := s.threads[t].pc.on;
      var s' := s.SetPc(t, Idle);
      if s.Connected(fd) then s'.SetChannel(fd, s.channels[fd].CountHangUp()) else s'
    case Forward(t) =>
      var pc := s.threads[t].pc;
      var s' := s.SetPc(t, Idle).(forwards := s.forwards + [Forwarded(t, pc.from, pc.answer)]);
      var s'' := if s.Connected(pc.from) then s'.SetChannel(pc.from, s.channels[pc.from].CountForward()) else s';
      s''.SendTo(s.threads[t].fd, [Answer(pc.answer)])
    case Exit(t) => s.SetPc(t, Ended).SendTo(s.threads[t].fd, [Bye])
    case Drop(t) => s.SetPc(t, Ended)
    case Listen(fd) => s.SetChannel(fd, s.channels[fd].Listen())
    case Crash(fd, keep) => s.SetChannel(fd, s.channels[fd].Close(keep))
    case Lose(fd) => s.SetChannel(fd, s.channels[fd].Close(false))
  }

  /** Whether a schedule can be followed from s, and where it leads. */
  predicate CanRun(strict: bool, s: State, steps: seq<Step>)
    decreases |steps|, 0
  {
    steps == [] || (CanRun(strict, s, steps[..|steps| - 1])
                    && Enabled(After(strict, s, steps[..|steps| - 1]), steps[|steps| - 1]))
  }

  function After(strict: bool, s: State, steps: seq<Step>): State
    requires CanRun(strict, s, steps)
    decreases |steps|, 1
  {
    if steps == [] then s
    else Next(strict, After(strict, s, steps[..|steps| - 1]), steps[|steps| - 1])
  }
}
