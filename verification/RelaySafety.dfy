/** What holds of the relay in every interleaving. */
module RelaySafety {
  import opened Accounts
  import opened Totals
  import opened Relay

  // ---- One channel ----

  /** Every INVITE on its way is followed by its blank half. */
  ghost predicate Paired(q: seq<Push>) {
    forall i :: 0 <= i < |q| && q[i].Invite? ==> i + 1 < |q| && q[i + 1] == Blank
  }

  /** A channel on which waits threads wait and answers threads hold an answer to pass on. */
  ghost predicate Balanced(strict: bool, c: Channel, waits: nat, answers: nat) {
    && (c.listening ==>
          && waits == c.Invites() + |c.toServer|
          && c.invited == c.answered + c.Invites()
          && c.hungUp == 0)
    && (!c.listening ==> waits >= |c.toServer| && c.toClient == [])
    && (forall i :: 0 <= i < |c.toServer| ==> c.toServer[i] == c.localSdp)
    && c.invited == c.forwarded + waits + answers + c.hungUp
    && c.answered == c.forwarded + answers + |c.toServer| + c.lost
    && (strict ==> OneAnswer(c))
  }

  /** With two-frame INVITEs: the blank half of the first one answered is next, or the listener is gone. */
  ghost predicate OneAnswer(c: Channel) {
    if !c.listening then c.answered <= 1
    else
      || (c.answered == 0 && Paired(c.toClient))
      || (c.answered == 1 && c.toClient != [] && c.toClient[0] == Blank)
  }

  lemma SendKeeps(strict: bool, c: Channel, message: Push, waits: nat, answers: nat)
    requires Balanced(strict, c, waits, answers) && !message.Invite?
    ensures Balanced(strict, c.Send([message]), waits, answers)
  {
    TotalAppend(IsInvite(), c.toClient, [message]);
    TotalOne(IsInvite(), message);
  }

  lemma InviteKeeps(strict: bool, c: Channel, callee: string, sdp: string, waits: nat, answers: nat)
    requires Balanced(strict, c, waits, answers)
    ensures Balanced(strict, c.SendInvite(strict, callee, sdp), waits + 1, answers)
  {
    var invite := Invite(callee, sdp);
    var more := [invite] + (if strict then [Blank] else []);
    TotalAppend(IsInvite(), c.toClient, more);
    TotalAppend(IsInvite(), [invite], if strict then [Blank] else []);
    TotalOne(IsInvite(), invite);
    TotalOne(IsInvite(), Blank);
  }

  lemma ReceiveKeeps(strict: bool, c: Channel, waits: nat, answers: nat)
    requires Balanced(strict, c, waits, answers) && c.toServer != [] && waits > 0
    ensures Balanced(strict, c.Receive(), waits - 1, answers + 1)
  {
  }

  lemma HangUpKeeps(strict: bool, c: Channel, waits: nat, answers: nat)
    requires Balanced(strict, c, waits, answers) && !c.listening && c.toServer == [] && waits > 0
    ensures Balanced(strict, c.CountHangUp(), waits - 1, answers)
  {
  }

  lemma ForwardKeeps(strict: bool, c: Channel, waits: nat, answers: nat)
    requires Balanced(strict, c, waits, answers) && answers > 0
    ensures Balanced(strict, c.CountForward(), waits, answers - 1)
  {
  }

  lemma CloseKeeps(strict: bool, c: Channel, keep: bool, waits: nat, answers: nat)
    requires Balanced(strict, c, waits, answers)
    ensures Balanced(strict, c.Close(keep), waits, answers)
  {
  }

  lemma ListenKeeps(strict: bool, c: Channel, waits: nat, answers: nat)
    requires Balanced(strict, c, waits, answers) && c.listening && c.toClient != []
    ensures Balanced(strict, c.Listen(), waits, answers)
  {
    var rest := c.toClient[1..];
    assert c.toClient == [c.toClient[0]] + rest;
    TotalAppend(IsInvite(), [c.toClient[0]], rest);
    TotalOne(IsInvite(), c.toClient[0]);
    assert forall i :: 0 <= i < |rest| ==> rest[i] == c.toClient[i + 1];
  }

  // ---- The whole relay ----

  /** A descriptor is a push channel that has been opened, or negative. */
  predicate Known(s: State, fd: int) { fd < |s.channels| }

  /** A thread's descriptors are known, an account it has seen is there, and the answer it holds is
      what the listener it came from gives. */
  ghost predicate ThreadFine(s: State, t: Thread) {
    && Known(s, t.fd)
    && match t.pc
       case SawLogin(callee, _) => callee in s.users
       case SawUser(callee, _) => callee in s.users
       case Inviting(to, _, _) => Known(s, to)
       case Waiting(on) => Known(s, on)
       case Answering(from, answer) => s.Connected(from) && answer == s.channels[from].localSdp
       case _ => true
  }

  ghost predicate ForwardFine(s: State, f: Forwarded) {
    s.Connected(f.from) && f.sdp == s.channels[f.from].localSdp
  }

  ghost predicate ChannelFine(strict: bool, s: State, fd: nat)
    requires s.Connected(fd)
  {
    Balanced(strict, s.channels[fd], s.Waits(fd), s.Answers(fd))
  }

  ghost predicate Inv(strict: bool, s: State) {
    && (forall t :: 0 <= t < |s.threads| ==> ThreadFine(s, s.threads[t]))
    && (forall name :: name in s.users ==> Known(s, s.users[name].socketFd))
    && (forall fd: nat :: fd < |s.channels| ==> ChannelFine(strict, s, fd))
    && (forall k :: 0 <= k < |s.forwards| ==> ForwardFine(s, s.forwards[k]))
  }

  /** Changing one thread changes the counts by that thread alone. */
  lemma ThreadCounts(s: State, t: nat, x: Thread, fd: int)
    requires t < |s.threads|
    ensures var s' := s.(threads := s.threads[t := x]);
      && s'.Waits(fd) == s.Waits(fd) - WaitsOn(fd)(s.threads[t]) + WaitsOn(fd)(x)
      && s'.Answers(fd) == s.Answers(fd) - AnswersFrom(fd)(s.threads[t]) + AnswersFrom(fd)(x)
  {
    TotalUpdate(WaitsOn(fd), s.threads, t, x);
    TotalUpdate(AnswersFrom(fd), s.threads, t, x);
    TotalAtLeast(WaitsOn(fd), s.threads, t);
    TotalAtLeast(AnswersFrom(fd), s.threads, t);
  }

  /** Channels keep their place and their listener's description; accounts stay. */
  ghost predicate Grows(s: State, s': State) {
    && s.users.Keys <= s'.users.Keys
    && |s.channels| <= |s'.channels|
    && forall fd: nat :: fd < |s.channels| ==> s.channels[fd].localSdp == s'.channels[fd].localSdp
  }

  lemma GrowsKeepsThread(s: State, s': State, t: Thread)
    requires Grows(s, s') && ThreadFine(s, t)
    ensures ThreadFine(s', t)
  {
  }

  lemma GrowsKeepsForward(s: State, s': State, f: Forwarded)
    requires Grows(s, s') && ForwardFine(s, f)
    ensures ForwardFine(s', f)
  {
  }

  lemma StepGrows(strict: bool, s: State, step: Step)
    requires Enabled(s, step)
    ensures Grows(s, Next(strict, s, step))
  {
  }

  /** A step that leaves fd's channel and both of its counts alone. */
  lemma Untouched(strict: bool, s: State, s': State, fd: nat)
    requires fd < |s.channels| && fd < |s'.channels| && s'.channels[fd] == s.channels[fd]
    requires s'.Waits(fd) == s.Waits(fd) && s'.Answers(fd) == s.Answers(fd)
    requires ChannelFine(strict, s, fd)
    ensures ChannelFine(strict, s', fd)
  {
  }

  /** Steps of a thread that is neither waiting nor passing on an answer, before or after. */
  lemma QuietThread(s: State, t: nat, x: Thread, fd: int)
    requires t < |s.threads|
    requires !s.threads[t].pc.Waiting? && !s.threads[t].pc.Answering? && !x.pc.Waiting? && !x.pc.Answering?
    ensures var s' := s.(threads := s.threads[t := x]);
      s'.Waits(fd) == s.Waits(fd) && s'.Answers(fd) == s.Answers(fd)
  {
    ThreadCounts(s, t, x, fd);
  }

  lemma {:induction false} FreshChannelHasNoOne(s: State, fd: int, threads: seq<Thread>)
    requires forall t :: 0 <= t < |threads| ==> ThreadFine(s, threads[t])
    requires fd >= |s.channels|
    ensures Total(WaitsOn(fd), threads) == 0 && Total(AnswersFrom(fd), threads) == 0
  {
    if threads != [] { FreshChannelHasNoOne(s, fd, threads[1..]); }
  }

  /** Connecting opens a channel that nobody waits on: no stored descriptor can be its number yet. */
  lemma ConnectBalances(strict: bool, s: State, t: nat, localSdp: string, fd: nat)
    requires Inv(strict, s) && At(s, t, Idle) && fd <= |s.channels|
    ensures ChannelFine(strict, Next(strict, s, Connect(t, localSdp)), fd)
  {
    QuietThread(s, t, s.threads[t].(fd := |s.channels|), fd);
    if fd == |s.channels| {
      FreshChannelHasNoOne(s, fd, s.threads);
      TotalOne(IsInvite(), Hello);
    } else {
      Untouched(strict, s, Next(strict, s, Connect(t, localSdp)), fd);
    }
  }

  lemma AcceptBalances(strict: bool, s: State, fd: nat)
    requires Inv(strict, s) && fd < |s.channels|
    ensures ChannelFine(strict, Next(strict, s, Accept), fd)
  {
    var x := Thread(-1, "", Idle);
    TotalAppend(WaitsOn(fd), s.threads, [x]);
    TotalAppend(AnswersFrom(fd), s.threads, [x]);
    TotalOne(WaitsOn(fd), x);
    TotalOne(AnswersFrom(fd), x);
    Untouched(strict, s, Next(strict, s, Accept), fd);
  }

  lemma SendInviteBalances(strict: bool, s: State, t: nat, fd: nat)
    requires Inv(strict, s) && Enabled(s, SendInvite(t)) && fd < |s.channels|
    ensures ChannelFine(strict, Next(strict, s, SendInvite(t)), fd)
  {
    var pc, s' := s.threads[t].pc, Next(strict, s, SendInvite(t));
    ThreadCounts(s, t, s.threads[t].(pc := Waiting(pc.to)), fd);
    assert ChannelFine(strict, s, fd);
    if fd == pc.to {
      InviteKeeps(strict, s.channels[fd], pc.callee, pc.sdp, s.Waits(fd), s.Answers(fd));
    } else {
      Untouched(strict, s, s', fd);
    }
  }

  lemma ReceiveBalances(strict: bool, s: State, t: nat, fd: nat)
    requires Inv(strict, s) && Enabled(s, Receive(t)) && fd < |s.channels|
    ensures ChannelFine(strict, Next(strict, s, Receive(t)), fd)
  {
    var on, s' := s.threads[t].pc.on, Next(strict, s, Receive(t));
    ThreadCounts(s, t, s'.threads[t], fd);
    assert ChannelFine(strict, s, fd);
    if fd == on {
      TotalAtLeast(WaitsOn(fd), s.threads, t);
      ReceiveKeeps(strict, s.channels[fd], s.Waits(fd), s.Answers(fd));
    } else {
      Untouched(strict, s, s', fd);
    }
  }

  lemma HangUpBalances(strict: bool, s: State, t: nat, fd: nat)
    requires Inv(strict, s) && Enabled(s, HangUp(t)) && fd < |s.channels|
    ensures ChannelFine(strict, Next(strict, s, HangUp(t)), fd)
  {
    var on, s' := s.threads[t].pc.on, Next(strict, s, HangUp(t));
    ThreadCounts(s, t, s.threads[t].(pc := Idle), fd);
    assert ChannelFine(strict, s, fd);
    if fd == on {
      TotalAtLeast(WaitsOn(fd), s.threads, t);
      HangUpKeeps(strict, s.channels[fd], s.Waits(fd), s.Answers(fd));
    } else {
      Untouched(strict, s, s', fd);
    }
  }

  /** Sending anything but an INVITE, to whatever descriptor, keeps every channel fine. */
  lemma SendToKeeps(strict: bool, s: State, to: int, message: Push, fd: nat)
    requires fd < |s.channels| && ChannelFine(strict, s, fd) && !message.Invite?
    ensures fd < |s.SendTo(to, [message]).channels| && ChannelFine(strict, s.SendTo(to, [message]), fd)
  {
    SendKeeps(strict, s.channels[fd], message, s.Waits(fd), s.Answers(fd));
  }

  /** The state in which a thread has recorded its answer as passed on but not yet sent it. */
  function Recorded(s: State, t: nat): State
    requires Enabled(s, Forward(t))
  {
    var pc := s.threads[t].pc;
    var s' := s.SetPc(t, Idle).(forwards := s.forwards + [Forwarded(t, pc.from, pc.answer)]);
    if s.Connected(pc.from) then s'.SetChannel(pc.from, s.channels[pc.from].CountForward()) else s'
  }

  lemma RecordedBalances(strict: bool, s: State, t: nat, fd: nat)
    requires Inv(strict, s) && Enabled(s, Forward(t)) && fd < |s.channels|
    ensures ChannelFine(strict, Recorded(s, t), fd)
  {
    ThreadCounts(s, t, s.threads[t].(pc := Idle), fd);
    assert ThreadFine(s, s.threads[t]);
    assert ChannelFine(strict, s, fd);
    if fd == s.threads[t].pc.from {
      TotalAtLeast(AnswersFrom(fd), s.threads, t);
      ForwardKeeps(strict, s.channels[fd], s.Waits(fd), s.Answers(fd));
    } else {
      Untouched(strict, s, Recorded(s, t), fd);
    }
  }

  lemma ForwardBalances(strict: bool, s: State, t: nat, fd: nat)
    requires Inv(strict, s) && Enabled(s, Forward(t)) && fd < |s.channels|
    ensures ChannelFine(strict, Next(strict, s, Forward(t)), fd)
  {
    RecordedBalances(strict, s, t, fd);
    SendToKeeps(strict, Recorded(s, t), s.threads[t].fd, Answer(s.threads[t].pc.answer), fd);
  }

  lemma ExitBalances(strict: bool, s: State, t: nat, fd: nat)
    requires Inv(strict, s) && Enabled(s, Exit(t)) && fd < |s.channels|
    ensures ChannelFine(strict, Next(strict, s, Exit(t)), fd)
  {
    QuietThread(s, t, s.threads[t].(pc := Ended), fd);
    Untouched(strict, s, s.SetPc(t, Ended), fd);
    SendToKeeps(strict, s.SetPc(t, Ended), s.threads[t].fd, Bye, fd);
  }

  /** Steps in which a thread moves between the look-ups of a call, or handles an account request. */
  lemma LookUpBalances(strict: bool, s: State, step: Step, t: nat, x: Thread, fd: nat)
    requires Inv(strict, s) && Enabled(s, step) && fd < |s.channels| && t < |s.threads|
    requires Next(strict, s, step).threads == s.threads[t := x] && Next(strict, s, step).channels == s.channels
    requires !s.threads[t].pc.Waiting? && !s.threads[t].pc.Answering? && !x.pc.Waiting? && !x.pc.Answering?
    ensures ChannelFine(strict, Next(strict, s, step), fd)
  {
    QuietThread(s, t, x, fd);
    Untouched(strict, s, Next(strict, s, step), fd);
  }

  lemma ListenerBalances(strict: bool, s: State, step: Step, on: nat, fd: nat)
    requires Inv(strict, s) && Enabled(s, step) && fd < |s.channels| && on < |s.channels|
    requires step == Listen(on) || step == Crash(on, true) || step == Crash(on, false) || step == Lose(on)
    ensures ChannelFine(strict, Next(strict, s, step), fd)
  {
    assert ChannelFine(strict, s, fd);
    var c := s.channels[fd];
    CloseKeeps(strict, c, true, s.Waits(fd), s.Answers(fd));
    CloseKeeps(strict, c, false, s.Waits(fd), s.Answers(fd));
    if fd == on && step.Listen? {
      ListenKeeps(strict, c, s.Waits(fd), s.Answers(fd));
    }
  }

  lemma StepBalances(strict: bool, s: State, step: Step, fd: nat)
    requires Inv(strict, s) && Enabled(s, step) && fd < |Next(strict, s, step).channels|
    ensures ChannelFine(strict, Next(strict, s, step), fd)
  {
    match step
    case Accept => AcceptBalances(strict, s, fd);
    case Connect(t, localSdp) => ConnectBalances(strict, s, t, localSdp, fd);
    case SendInvite(t) => SendInviteBalances(strict, s, t, fd);
    case Receive(t) => ReceiveBalances(strict, s, t, fd);
    case HangUp(t) => HangUpBalances(strict, s, t, fd);
    case Forward(t) => ForwardBalances(strict, s, t, fd);
    case Exit(t) => ExitBalances(strict, s, t, fd);
    case Listen(on) => ListenerBalances(strict, s, step, on, fd);
    case Crash(on, _) => ListenerBalances(strict, s, step, on, fd);
    case Lose(on) => ListenerBalances(strict, s, step, on, fd);
    case SignUp(t, _, _) => LookUpBalances(strict, s, step, t, Next(strict, s, step).threads[t], fd);
    case LogIn(t, _, _) => LookUpBalances(strict, s, step, t, Next(strict, s, step).threads[t], fd);
    case LogOut(t, _) => LookUpBalances(strict, s, step, t, Next(strict, s, step).threads[t], fd);
    case Call(t, _, _) => LookUpBalances(strict, s, step, t, Next(strict, s, step).threads[t], fd);
    case CheckUser(t) => LookUpBalances(strict, s, step, t, Next(strict, s, step).threads[t], fd);
    case FetchUser(t) => LookUpBalances(strict, s, step, t, Next(strict, s, step).threads[t], fd);
    case Drop(t) => LookUpBalances(strict, s, step, t, Next(strict, s, step).threads[t], fd);
  }

  lemma StepThreads(strict: bool, s: State, step: Step, t: nat)
    requires Inv(strict, s) && Enabled(s, step) && t < |Next(strict, s, step).threads|
    ensures ThreadFine(Next(strict, s, step), Next(strict, s, step).threads[t])
  {
    var s' := Next(strict, s, step);
    StepGrows(strict, s, step);
    if t < |s.threads| {
      GrowsKeepsThread(s, s', s.threads[t]);
      match step
      case Receive(u) => assert ChannelFine(strict, s, s.threads[u].pc.on);
      case _ =>
    }
  }

  lemma StepUsers(strict: bool, s: State, step: Step, name: string)
    requires Inv(strict, s) && Enabled(s, step) && name in Next(strict, s, step).users
    ensures Known(Next(strict, s, step), Next(strict, s, step).users[name].socketFd)
  {
    match step
    case SignUp(t, _, _) => assert ThreadFine(s, s.threads[t]);
    case _ =>
  }

  lemma StepForwards(strict: bool, s: State, step: Step, k: nat)
    requires Inv(strict, s) && Enabled(s, step) && k < |Next(strict, s, step).forwards|
    ensures ForwardFine(Next(strict, s, step), Next(strict, s, step).forwards[k])
  {
    var s' := Next(strict, s, step);
    StepGrows(strict, s, step);
    if k < |s.forwards| {
      GrowsKeepsForward(s, s', s.forwards[k]);
    } else {
      assert ThreadFine(s, s.threads[step.t]);
      GrowsKeepsForward(s, s', s'.forwards[k]);
    }
  }

  /** Every step keeps the invariant. */
  lemma StepKeepsInv(strict: bool, s: State, step: Step)
    requires Inv(strict, s) && Enabled(s, step)
    ensures Inv(strict, Next(strict, s, step))
  {
    var s' := Next(strict, s, step);
    forall t | 0 <= t < |s'.threads| ensures ThreadFine(s', s'.threads[t]) { StepThreads(strict, s, step, t); }
    forall name | name in s'.users ensures Known(s', s'.users[name].socketFd) { StepUsers(strict, s, step, name); }
    forall fd: nat | fd < |s'.channels| ensures ChannelFine(strict, s', fd) { StepBalances(strict, s, step, fd); }
    forall k | 0 <= k < |s'.forwards| ensures ForwardFine(s', s'.forwards[k]) { StepForwards(strict, s, step, k); }
  }

  /** In every interleaving, the invariant holds. */
  lemma {:induction false} Reachable(strict: bool, steps: seq<Step>)
    requires CanRun(strict, INITIAL, steps)
    ensures Inv(strict, After(strict, INITIAL, steps))
  {
    if steps != [] {
      var k := |steps| - 1;
      Reachable(strict, steps[..k]);
      StepKeepsInv(strict, After(strict, INITIAL, steps[..k]), steps[k]);
    }
  }

  /** Some interleaving leads to s. */
  ghost predicate IsReachable(strict: bool, s: State) {
    exists steps :: CanRun(strict, INITIAL, steps) && s == After(strict, INITIAL, steps)
  }

  lemma ReachableFine(strict: bool, s: State)
    requires IsReachable(strict, s)
    ensures Inv(strict, s)
  {
    var steps :| CanRun(strict, INITIAL, steps) && s == After(strict, INITIAL, steps);
    Reachable(strict, steps);
  }
}
