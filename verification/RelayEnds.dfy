/** Every wait of the relay ends: each step of a call uses up work, and only requests bring more. */
module RelayEnds {
  import opened Totals
  import opened Relay
  import opened RelaySafety

  /** Steps that carry calls already made towards their end; none needs a new request. */
  predicate IsProgress(step: Step) {
    || step.CheckUser? || step.FetchUser? || step.SendInvite?
    || step.Receive? || step.HangUp? || step.Forward? || step.Listen?
  }

  function PcWeight(pc: Pc): nat {
    match pc
    case SawLogin(_, _) => 8
    case SawUser(_, _) => 7
    case Inviting(_, _, _) => 6
    case Waiting(_) => 2
    case Answering(_, _) => 2
    case _ => 0
  }

  function ThreadWeight(): Thread -> nat { (t: Thread) => PcWeight(t.pc) }

  function PushWeight(): Push -> nat { (p: Push) => if p.Invite? then 2 else 1 }

  function ChannelWeight(): Channel -> nat { (c: Channel) => Total(PushWeight(), c.toClient) + |c.toServer| }

  /** The work left in a state. */
  function Work(s: State): nat { Total(ThreadWeight(), s.threads) + Total(ChannelWeight(), s.channels) }

  lemma SendWork(c: Channel, messages: seq<Push>)
    ensures ChannelWeight()(c.Send(messages)) <= ChannelWeight()(c) + Total(PushWeight(), messages)
  {
    TotalAppend(PushWeight(), c.toClient, messages);
  }

  lemma InviteWork(strict: bool, c: Channel, callee: string, sdp: string)
    ensures ChannelWeight()(c.SendInvite(strict, callee, sdp)) <= ChannelWeight()(c) + 3
  {
    var invite := Invite(callee, sdp);
    SendWork(c, [invite] + (if strict then [Blank] else []));
    TotalAppend(PushWeight(), [invite], if strict then [Blank] else []);
    TotalOne(PushWeight(), invite);
    TotalOne(PushWeight(), Blank);
  }

  lemma ListenWork(c: Channel)
    requires c.toClient != []
    ensures ChannelWeight()(c.Listen()) < ChannelWeight()(c)
  {
    var rest := c.toClient[1..];
    assert c.toClient == [c.toClient[0]] + rest;
    TotalAppend(PushWeight(), [c.toClient[0]], rest);
    TotalOne(PushWeight(), c.toClient[0]);
  }

  lemma ThreadWork(s: State, t: nat, pc: Pc)
    requires t < |s.threads|
    ensures Total(ThreadWeight(), s.SetPc(t, pc).threads) + PcWeight(s.threads[t].pc)
         == Total(ThreadWeight(), s.threads) + PcWeight(pc)
  {
    TotalUpdate(ThreadWeight(), s.threads, t, s.threads[t].(pc := pc));
  }

  lemma ChannelWork(s: State, fd: nat, c: Channel)
    requires fd < |s.channels|
    ensures Total(ChannelWeight(), s.SetChannel(fd, c).channels) + ChannelWeight()(s.channels[fd])
         == Total(ChannelWeight(), s.channels) + ChannelWeight()(c)
  {
    TotalUpdate(ChannelWeight(), s.channels, fd, c);
  }

  lemma ForwardWork(strict: bool, s: State, t: nat)
    requires Enabled(s, Forward(t))
    ensures Work(Next(strict, s, Forward(t))) < Work(s)
  {
    var pc := s.threads[t].pc;
    ThreadWork(s, t, Idle);
    var s' := s.SetPc(t, Idle).(forwards := s.forwards + [Forwarded(t, pc.from, pc.answer)]);
    var s'' := if s.Connected(pc.from) then s'.SetChannel(pc.from, s.channels[pc.from].CountForward()) else s';
    if s.Connected(pc.from) {
      ChannelWork(s', pc.from, s.channels[pc.from].CountForward());
    }
    var fd := s.threads[t].fd;
    if s''.Connected(fd) {
      var c := s''.channels[fd].Send([Answer(pc.answer)]);
      ChannelWork(s'', fd, c);
      SendWork(s''.channels[fd], [Answer(pc.answer)]);
      TotalOne(PushWeight(), Answer(pc.answer));
    }
  }

  /** Each of these steps leaves less work. */
  lemma ProgressShrinksWork(strict: bool, s: State, step: Step)
    requires Enabled(s, step) && IsProgress(step)
    ensures Work(Next(strict, s, step)) < Work(s)
  {
    match step
    case Listen(fd) =>
      ListenWork(s.channels[fd]);
      ChannelWork(s, fd, s.channels[fd].Listen());
    case Forward(t) => ForwardWork(strict, s, t);
    case SendInvite(t) =>
      var pc := s.threads[t].pc;
      ThreadWork(s, t, Waiting(pc.to));
      if s.Connected(pc.to) {
        InviteWork(strict, s.channels[pc.to], pc.callee, pc.sdp);
        ChannelWork(s, pc.to, s.channels[pc.to].SendInvite(strict, pc.callee, pc.sdp));
      }
    case Receive(t) =>
      var fd := s.threads[t].pc.on;
      ThreadWork(s, t, Answering(fd, s.channels[fd].toServer[0]));
      ChannelWork(s, fd, s.channels[fd].Receive());
    case HangUp(t) =>
      var fd := s.threads[t].pc.on;
      ThreadWork(s, t, Idle);
      if s.Connected(fd) {
        ChannelWork(s, fd, s.channels[fd].CountHangUp());
      }
    case CheckUser(t) => ThreadWork(s, t, Next(strict, s, step).threads[t].pc);
    case FetchUser(t) => ThreadWork(s, t, Next(strict, s, step).threads[t].pc);
  }

  /** What another step adds to the work left: the whole of a call, a greeting, or a farewell. */
  function Brings(step: Step): nat {
    match step
    case Call(_, _, _) => 8
    case Connect(_, _) => 1
    case Exit(_) => 1
    case _ => 0
  }

  /** Any other step adds no more than it brings. */
  lemma OtherStepsWork(strict: bool, s: State, step: Step)
    requires Enabled(s, step) && !IsProgress(step)
    ensures Work(Next(strict, s, step)) <= Work(s) + Brings(step)
  {
    match step
    case Accept =>
      TotalAppend(ThreadWeight(), s.threads, [Thread(-1, "", Idle)]);
      TotalOne(ThreadWeight(), Thread(-1, "", Idle));
    case Connect(t, localSdp) => ConnectWork(strict, s, t, localSdp);
    case Exit(t) => ExitWork(strict, s, t);
    case Crash(fd, keep) => CloseWork(s, fd, keep);
    case Lose(fd) => CloseWork(s, fd, false);
    case SignUp(t, _, _) => OneThreadWork(s, Next(strict, s, step), t);
    case LogIn(t, _, _) => OneThreadWork(s, Next(strict, s, step), t);
    case LogOut(t, _) => OneThreadWork(s, Next(strict, s, step), t);
    case Call(t, _, _) => OneThreadWork(s, Next(strict, s, step), t);
    case Drop(t) => OneThreadWork(s, Next(strict, s, step), t);
  }

  lemma OneThreadWork(s: State, s': State, t: nat)
    requires t < |s.threads| == |s'.threads|
    requires s'.threads == s.threads[t := s'.threads[t]] && s'.channels == s.channels
    ensures Work(s') + PcWeight(s.threads[t].pc) == Work(s) + PcWeight(s'.threads[t].pc)
  {
    TotalUpdate(ThreadWeight(), s.threads, t, s'.threads[t]);
  }

  lemma ConnectWork(strict: bool, s: State, t: nat, localSdp: string)
    requires At(s, t, Idle)
    ensures Work(Next(strict, s, Connect(t, localSdp))) == Work(s) + 1
  {
    var s' := Next(strict, s, Connect(t, localSdp));
    var c := s'.channels[|s.channels|];
    TotalUpdate(ThreadWeight(), s.threads, t, s'.threads[t]);
    TotalAppend(ChannelWeight(), s.channels, [c]);
    TotalOne(ChannelWeight(), c);
    TotalOne(PushWeight(), Hello);
  }

  lemma ExitWork(strict: bool, s: State, t: nat)
    requires At(s, t, Idle)
    ensures Work(Next(strict, s, Exit(t))) <= Work(s) + 1
  {
    ThreadWork(s, t, Ended);
    var s', fd := s.SetPc(t, Ended), s.threads[t].fd;
    if s'.Connected(fd) {
      ChannelWork(s', fd, s'.channels[fd].Send([Bye]));
      SendWork(s'.channels[fd], [Bye]);
      TotalOne(PushWeight(), Bye);
    }
  }

  lemma CloseWork(s: State, fd: nat, keep: bool)
    requires fd < |s.channels|
    ensures Work(s.SetChannel(fd, s.channels[fd].Close(keep))) <= Work(s)
  {
    ChannelWork(s, fd, s.channels[fd].Close(keep));
  }

  /** How many steps of a schedule are progress, and what all the others bring. */
  function Progress(steps: seq<Step>): nat {
    if steps == [] then 0
    else Progress(steps[..|steps| - 1]) + (if IsProgress(steps[|steps| - 1]) then 1 else 0)
  }

  function Brought(steps: seq<Step>): nat {
    if steps == [] then 0 else Brought(steps[..|steps| - 1]) + Brings(steps[|steps| - 1])
  }

  /** On any schedule at all, every progress step uses up work, and only requests bring more. */
  lemma {:induction false} ProgressIsBounded(strict: bool, s: State, steps: seq<Step>)
    requires CanRun(strict, s, steps)
    ensures Progress(steps) + Work(After(strict, s, steps)) <= Work(s) + Brought(steps)
  {
    if steps != [] {
      var k := |steps| - 1;
      ProgressIsBounded(strict, s, steps[..k]);
      if IsProgress(steps[k]) {
        ProgressShrinksWork(strict, After(strict, s, steps[..k]), steps[k]);
      } else {
        OtherStepsWork(strict, After(strict, s, steps[..k]), steps[k]);
      }
    }
  }

  ghost predicate AllProgress(steps: seq<Step>) { forall i :: 0 <= i < |steps| ==> IsProgress(steps[i]) }

  lemma {:induction false} OnlyProgress(steps: seq<Step>)
    requires AllProgress(steps)
    ensures Progress(steps) == |steps| && Brought(steps) == 0
  {
    if steps != [] { OnlyProgress(steps[..|steps| - 1]); }
  }

  /** A thread inside a call can always be helped: some progress step is enabled. */
  lemma BusyMeansEnabled(strict: bool, s: State, t: nat) returns (step: Step)
    requires Inv(strict, s) && t < |s.threads| && !s.threads[t].pc.Idle? && !s.threads[t].pc.Ended?
    ensures Enabled(s, step) && IsProgress(step)
  {
    match s.threads[t].pc
    case SawLogin(_, _) => step := CheckUser(t);
    case SawUser(_, _) => step := FetchUser(t);
    case Inviting(_, _, _) => step := SendInvite(t);
    case Answering(_, _) => step := Forward(t);
    case Waiting(fd) =>
      if !s.Connected(fd) {
        step := HangUp(t);
      } else if s.channels[fd].toServer != [] {
        step := Receive(t);
      } else if !s.channels[fd].listening {
        step := HangUp(t);
      } else {
        step := Listen(fd);
        assert ChannelFine(strict, s, fd);
        TotalAtLeast(WaitsOn(fd), s.threads, t);
      }
  }

  /** No call is left anywhere: no thread is inside one, and every INVITE ever sent to a client that
      still listens was answered once, and the answer passed on to its caller's channel. */
  ghost predicate AllCallsOver(s: State) {
    && (forall t :: 0 <= t < |s.threads| ==> s.threads[t].pc.Idle? || s.threads[t].pc.Ended?)
    && (forall fd: nat :: fd < |s.channels| && s.channels[fd].listening ==>
          s.channels[fd].forwarded == s.channels[fd].answered == s.channels[fd].invited)
  }

  /** No step is possible without a new request. */
  ghost predicate Stuck(s: State) { forall step :: IsProgress(step) ==> !Enabled(s, step) }

  /** Every wait ends. On any schedule from any reachable state, whatever other connections do and
      whichever listeners crash meanwhile, the steps that carry calls on are bounded by the work there
      was and 8 for every CALL, 1 for every CLIENT and 1 for every EXIT since; where none of them is
      possible, all calls are over. */
  lemma EveryWaitEnds(strict: bool, s: State, steps: seq<Step>)
    requires IsReachable(strict, s) && CanRun(strict, s, steps)
    ensures Progress(steps) + Work(After(strict, s, steps)) <= Work(s) + Brought(steps)
    ensures AllProgress(steps) ==> |steps| <= Work(s)
    ensures Stuck(After(strict, s, steps)) ==> AllCallsOver(After(strict, s, steps))
  {
    ProgressIsBounded(strict, s, steps);
    if AllProgress(steps) {
      OnlyProgress(steps);
    }
    ReachableFine(strict, s);
    RunKeepsInv(strict, s, steps);
    if Stuck(After(strict, s, steps)) {
      StuckIsOver(strict, After(strict, s, steps));
    }
  }

  /** From any reachable state, however many steps of the calls already made were chosen first, their
      end can be reached without any new request, in at most Work(s) steps altogether. */
  lemma {:induction false} CallsCanEnd(strict: bool, s: State, sofar: seq<Step>) returns (steps: seq<Step>)
    requires IsReachable(strict, s) && CanRun(strict, s, sofar) && AllProgress(sofar)
    ensures sofar <= steps && CanRun(strict, s, steps) && AllProgress(steps) && |steps| <= Work(s)
    ensures Stuck(After(strict, s, steps)) && AllCallsOver(After(strict, s, steps))
    decreases Work(After(strict, s, sofar))
  {
    var now := After(strict, s, sofar);
    if step :| IsProgress(step) && Enabled(now, step) {
      var more := sofar + [step];
      assert more[..|sofar|] == sofar;
      ProgressShrinksWork(strict, now, step);
      steps := CallsCanEnd(strict, s, more);
    } else {
      steps := sofar;
      EveryWaitEnds(strict, s, steps);
    }
  }

  lemma {:induction false} RunKeepsInv(strict: bool, s: State, steps: seq<Step>)
    requires Inv(strict, s) && CanRun(strict, s, steps)
    ensures Inv(strict, After(strict, s, steps))
  {
    if steps != [] {
      var k := |steps| - 1;
      RunKeepsInv(strict, s, steps[..k]);
      StepKeepsInv(strict, After(strict, s, steps[..k]), steps[k]);
    }
  }

  lemma StuckIsOver(strict: bool, s: State)
    requires Inv(strict, s) && Stuck(s)
    ensures AllCallsOver(s)
  {
    forall t | 0 <= t < |s.threads| ensures s.threads[t].pc.Idle? || s.threads[t].pc.Ended? {
      if !s.threads[t].pc.Idle? && !s.threads[t].pc.Ended? {
        var step := BusyMeansEnabled(strict, s, t);
      }
    }
    forall fd: nat | fd < |s.channels| && s.channels[fd].listening
      ensures s.channels[fd].forwarded == s.channels[fd].answered == s.channels[fd].invited {
      assert !Enabled(s, Listen(fd));
      TotalZero(WaitsOn(fd), s.threads);
      TotalZero(AnswersFrom(fd), s.threads);
      assert ChannelFine(strict, s, fd);
    }
  }
}
