/** What the steps of a call do, said thread by thread and channel by channel. */
module RelaySteps {
  import opened Text
  import opened Accounts
  import opened Totals
  import opened Relay
  import opened RelaySafety
  import opened RelayRuns
  import opened RelayCalls

  /** The thread whose step it is; a listener's step is no thread's. */
  function Actor(step: Step): Option<nat> {
    match step
    case Accept => None
    case Listen(_) => None
    case Crash(_, _) => None
    case Lose(_) => None
    case _ => Some(step.t)
  }

  /** A step changes no thread but its own. */
  lemma OtherThreadsStay(strict: bool, s: State, step: Step, u: nat)
    requires Enabled(s, step) && u < |s.threads| && Actor(step) != Some(u)
    ensures u < |Next(strict, s, step).threads| && Next(strict, s, step).threads[u] == s.threads[u]
  {
  }

  /** CALL: any idle thread may make it, whoever else waits for the same callee. It goes on exactly if
      the callee is logged in, and nothing but its own place changes. */
  lemma CallIsStep(strict: bool, s: State, t: nat, callee: string, sdp: string)
    ensures Enabled(s, Call(t, callee, sdp)) <==> t < |s.threads| && s.threads[t].pc == Idle
    ensures Enabled(s, Call(t, callee, sdp)) ==>
      var s' := Next(strict, s, Call(t, callee, sdp));
      && s'.users == s.users && s'.channels == s.channels && s'.forwards == s.forwards
      && s'.threads[t]
         == s.threads[t].(pc := if callee in s.users && s.users[callee].isLogin then SawLogin(callee, sdp) else Idle)
  {
  }

  /** The second look-up asks only whether the callee exists. */
  lemma CheckIsStep(strict: bool, s: State, t: nat, callee: string, sdp: string)
    requires t < |s.threads| && s.threads[t].pc == SawLogin(callee, sdp)
    ensures Enabled(s, CheckUser(t))
    ensures var s' := Next(strict, s, CheckUser(t));
      && s'.users == s.users && s'.channels == s.channels && s'.forwards == s.forwards
      && s'.threads[t] == s.threads[t].(pc := if callee in s.users then SawUser(callee, sdp) else Idle)
  {
  }

  /** The third takes the descriptor that the account has at that moment. */
  lemma FetchIsStep(strict: bool, s: State, t: nat, callee: string, sdp: string)
    requires t < |s.threads| && s.threads[t].pc == SawUser(callee, sdp) && callee in s.users
    ensures Enabled(s, FetchUser(t))
    ensures var s' := Next(strict, s, FetchUser(t));
      && s'.users == s.users && s'.channels == s.channels && s'.forwards == s.forwards
      && s'.threads[t] == s.threads[t].(pc := Inviting(s.users[callee].socketFd, callee, sdp))
  {
  }

  /** The INVITE is sent whatever is on the channel already, and the thread waits there in any case. */
  lemma InviteWaits(strict: bool, s: State, t: nat, fd: int, callee: string, sdp: string)
    requires t < |s.threads| && s.threads[t].pc == Inviting(fd, callee, sdp)
    ensures Enabled(s, SendInvite(t))
    ensures var s' := Next(strict, s, SendInvite(t));
      && s'.users == s.users && s'.forwards == s.forwards && |s'.channels| == |s.channels|
      && s'.threads[t] == s.threads[t].(pc := Waiting(fd))
      && forall k: nat :: k < |s.channels| ==>
           && s'.channels[k].invited == s.channels[k].invited + (if k == fd then 1 else 0)
           && s'.channels[k].toClient
              == s.channels[k].toClient
                 + (if k == fd && s.channels[k].listening
                    then [Invite(callee, sdp)] + (if strict then [Blank] else []) else [])
  {
  }

  /** CLIENT opens the next channel, greets its listener, and keeps the descriptor for the connection. */
  lemma ConnectIsStep(strict: bool, s: State, t: nat, localSdp: string)
    ensures Enabled(s, Connect(t, localSdp)) <==> t < |s.threads| && s.threads[t].pc == Idle
    ensures Enabled(s, Connect(t, localSdp)) ==>
      var s' := Next(strict, s, Connect(t, localSdp));
      && s'.users == s.users && s'.forwards == s.forwards
      && s'.threads[t] == s.threads[t].(fd := |s.channels|)
      && |s'.channels| == |s.channels| + 1 && s'.channels[..|s.channels|] == s.channels
      && var c := s'.channels[|s.channels|];
      && c.listening && c.localSdp == localSdp && c.toClient == [Hello] && c.toServer == [] && c.heard == []
  {
  }

  /** A waiting thread, any of those that do, takes the first answer that is there; it gives up exactly
      when the listener is gone and nothing is left to read, or there is no such channel. */
  lemma WaitingSteps(strict: bool, s: State, t: nat, fd: nat)
    requires t < |s.threads| && s.threads[t].pc == Waiting(fd)
    ensures Enabled(s, Receive(t)) <==> fd < |s.channels| && s.channels[fd].toServer != []
    ensures Enabled(s, HangUp(t)) <==>
      fd >= |s.channels| || (!s.channels[fd].listening && s.channels[fd].toServer == [])
    ensures Enabled(s, Receive(t)) ==>
      var s' := Next(strict, s, Receive(t));
      && s'.threads[t] == s.threads[t].(pc := Answering(fd, s.channels[fd].toServer[0]))
      && s'.channels[fd].toServer == s.channels[fd].toServer[1..]
      && s'.channels[fd].toClient == s.channels[fd].toClient
    ensures Enabled(s, HangUp(t)) ==> Next(strict, s, HangUp(t)).threads[t] == s.threads[t].(pc := Idle)
  {
  }

  /** An answer is passed on to the caller's own channel, and to no other. */
  lemma ForwardIsStep(strict: bool, s: State, t: nat, from: int, answer: string)
    requires t < |s.threads| && s.threads[t].pc == Answering(from, answer)
    ensures Enabled(s, Forward(t))
    ensures var s' := Next(strict, s, Forward(t));
      && s'.users == s.users && s'.forwards == s.forwards + [Forwarded(t, from, answer)]
      && s'.threads[t] == s.threads[t].(pc := Idle) && |s'.channels| == |s.channels|
      && forall k: nat :: k < |s.channels| ==>
           s'.channels[k].toClient
           == s.channels[k].toClient
              + (if k == s.threads[t].fd && s.channels[k].listening then [Answer(answer)] else [])
  {
  }

  function CallSteps(t: nat, callee: string, sdp: string): seq<Step> {
    [Call(t, callee, sdp), CheckUser(t), FetchUser(t)] + [SendInvite(t)]
  }

  /** Any idle thread can call any account that is logged in and come to wait on its channel, however
      many wait there already: then one more does, and one more INVITE is on its way if the callee
      listens. */
  lemma CallComesToWait(strict: bool, s: State, t: nat, callee: string, sdp: string) returns (s': State)
    requires t < |s.threads| && s.threads[t].pc == Idle && callee in s.users && s.users[callee].isLogin
    ensures Leads(strict, s, CallSteps(t, callee, sdp), s')
    ensures var fd := s.users[callee].socketFd;
      && s'.users == s.users && s'.threads == s.threads[t := s.threads[t].(pc := Waiting(fd))]
      && |s'.channels| == |s.channels|
      && s'.Waits(fd) == s.Waits(fd) + 1
      && forall k: nat :: k < |s.channels| ==>
           && s'.channels[k].listening == s.channels[k].listening
           && s'.channels[k].invited == s.channels[k].invited + (if k == fd then 1 else 0)
           && s'.channels[k].Invites()
              == s.channels[k].Invites() + (if k == fd && s.channels[k].listening then 1 else 0)
  {
    var fd := s.users[callee].socketFd;
    var s1 := s.SetPc(t, SawLogin(callee, sdp));
    var s2 := s.SetPc(t, SawUser(callee, sdp));
    var s3 := s.SetPc(t, Inviting(fd, callee, sdp));
    assert Next(strict, s, Call(t, callee, sdp)) == s1;
    assert Next(strict, s1, CheckUser(t)) == s2;
    assert Next(strict, s2, FetchUser(t)) == s3;
    LeadsThree(strict, s, Call(t, callee, sdp), CheckUser(t), FetchUser(t));
    LeadsSnoc(strict, s, [Call(t, callee, sdp), CheckUser(t), FetchUser(t)], s3, SendInvite(t));
    s' := Next(strict, s3, SendInvite(t));
    assert s'.threads == s.threads[t := s.threads[t].(pc := Waiting(fd))];
    ThreadCounts(s, t, s'.threads[t], fd);
    if s.Connected(fd) {
      OneMoreInvite(strict, s.channels[fd], callee, sdp);
    }
  }

  lemma OneMoreInvite(strict: bool, c: Channel, callee: string, sdp: string)
    ensures var c' := c.SendInvite(strict, callee, sdp);
      c'.Invites() == c.Invites() + (if c.listening then 1 else 0)
  {
    var invite := Invite(callee, sdp);
    var more := if strict then [Blank] else [];
    TotalAppend(IsInvite(), c.toClient, [invite] + more);
    TotalAppend(IsInvite(), [invite], more);
    TotalOne(IsInvite(), invite);
    TotalOne(IsInvite(), Blank);
  }

  // ---- Two callers of one client ----

  lemma CalleeIsReady(strict: bool, name: string)
    ensures Leads(strict, INITIAL, [Accept, Accept, Accept] + [Connect(0, ""), SignUp(0, name, ""), LogIn(0, name, "")],
                  Ready(name))
  {
    ThreeAccepted(strict);
    CalleeLogsIn(strict, name);
    LeadsOn(strict, INITIAL, [Accept, Accept, Accept], Three(),
            [Connect(0, ""), SignUp(0, name, ""), LogIn(0, name, "")], Ready(name));
  }

  function Three(): State {
    State(map[], [Thread(-1, "", Idle), Thread(-1, "", Idle), Thread(-1, "", Idle)], [], [])
  }

  lemma ThreeAccepted(strict: bool)
    ensures Leads(strict, INITIAL, [Accept, Accept, Accept], Three())
  {
    LeadsThree(strict, INITIAL, Accept, Accept, Accept);
  }

  lemma CalleeLogsIn(strict: bool, name: string)
    ensures Leads(strict, Three(), [Connect(0, ""), SignUp(0, name, ""), LogIn(0, name, "")], Ready(name))
  {
    var s := Ready(name).(users := map[], threads := Three().threads[0 := Thread(0, "", Idle)]);
    var s' := Ready(name).(users := map[name := User(name, "", false, 0)]);
    assert Next(strict, Three(), Connect(0, "")) == s;
    assert Next(strict, s, SignUp(0, name, "")) == s';
    LeadsThree(strict, Three(), Connect(0, ""), SignUp(0, name, ""), LogIn(0, name, ""));
  }

  /** A client that is logged in, and two more connections. */
  function Ready(name: string): State {
    State(map[name := User(name, "", true, 0)],
          [Thread(0, name, Idle), Thread(-1, "", Idle), Thread(-1, "", Idle)], [Greeted()], [])
  }

  /** Two threads wait on one channel, with both INVITEs on their way. */
  lemma TwoWaitOnOne(strict: bool, name: string, sdp: string, other: string) returns (steps: seq<Step>)
    ensures CanRun(strict, INITIAL, steps)
    ensures var s := After(strict, INITIAL, steps);
      && |s.threads| == 3 && s.threads[1].pc == s.threads[2].pc == Waiting(0) && s.Waits(0) == 2
      && |s.channels| == 1 && s.channels[0].listening
      && s.channels[0].invited == 2 && s.channels[0].Invites() == 2
  {
    var a := [Accept, Accept, Accept] + [Connect(0, ""), SignUp(0, name, ""), LogIn(0, name, "")];
    var s := Ready(name);
    CalleeIsReady(strict, name);
    var s1 := CallComesToWait(strict, s, 1, name, sdp);
    var s2 := CallComesToWait(strict, s1, 2, name, other);
    LeadsOn(strict, INITIAL, a, s, CallSteps(1, name, sdp), s1);
    LeadsOn(strict, INITIAL, a + CallSteps(1, name, sdp), s1, CallSteps(2, name, other), s2);
    steps := a + CallSteps(1, name, sdp) + CallSteps(2, name, other);
    TotalZero(WaitsOn(0), s.threads);
    TotalOne(IsInvite(), Hello);
  }

  // ---- The end of a connection ----

  /** A connection that was told to EXIT, or dropped, makes no further step. */
  lemma {:induction false} EndedIsFinal(strict: bool, s: State, steps: seq<Step>, t: nat)
    requires CanRun(strict, s, steps) && t < |s.threads| && s.threads[t].pc == Ended
    ensures var s' := After(strict, s, steps); t < |s'.threads| && s'.threads[t] == s.threads[t]
    ensures forall i :: 0 <= i < |steps| ==> Actor(steps[i]) != Some(t)
  {
    if steps != [] {
      var k := |steps| - 1;
      EndedIsFinal(strict, s, steps[..k], t);
      EndedHasNoStep(After(strict, s, steps[..k]), steps[k], t);
      OtherThreadsStay(strict, After(strict, s, steps[..k]), steps[k], t);
    }
  }

  lemma EndedHasNoStep(s: State, step: Step, t: nat)
    requires t < |s.threads| && s.threads[t].pc == Ended && Enabled(s, step)
    ensures Actor(step) != Some(t)
  {
  }

  /** EXIT and a dropped connection end the thread. */
  lemma ExitEnds(strict: bool, s: State, t: nat)
    requires t < |s.threads| && s.threads[t].pc == Idle
    ensures Enabled(s, Exit(t)) && Next(strict, s, Exit(t)).threads[t].pc == Ended
    ensures Enabled(s, Drop(t)) && Next(strict, s, Drop(t)).threads[t].pc == Ended
  {
  }
}
