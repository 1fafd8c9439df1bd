/** What the relay's invariant means: calls are conserved, answers are the right ones, and the table
    of accounts is the summary of the requests made. */
module RelayRuns {
  import opened Accounts
  import opened Totals
  import opened Relay
  import opened RelaySafety

  // ---- Conservation and provenance ----

  /** While a client listens, the threads blocked on its channel are exactly the INVITEs on their way
      to it and the ACCEPTs on their way from it, however many callers and accounts share it; and every
      INVITE ever sent is answered and passed on, given up on, or still waited for. */
  lemma CallsConserved(strict: bool, s: State, fd: nat)
    requires IsReachable(strict, s) && fd < |s.channels|
    ensures var c := s.channels[fd];
      && (c.listening ==> s.Waits(fd) == c.Invites() + |c.toServer| && c.hungUp == 0)
      && c.invited == c.forwarded + s.Waits(fd) + s.Answers(fd) + c.hungUp
  {
    ReachableFine(strict, s);
    assert ChannelFine(strict, s, fd);
  }

  function CameFrom(fd: int): Forwarded -> nat { (f: Forwarded) => if f.from == fd then 1 else 0 }

  function ForwardedFrom(s: State, fd: nat): nat { if fd < |s.channels| then s.channels[fd].forwarded else 0 }

  ghost predicate Counted(s: State, fd: nat) { Total(CameFrom(fd), s.forwards) == ForwardedFrom(s, fd) }

  lemma OtherStepsForwardNothing(strict: bool, s: State, step: Step, fd: nat)
    requires Enabled(s, step) && !step.Forward?
    ensures Next(strict, s, step).forwards == s.forwards
    ensures ForwardedFrom(Next(strict, s, step), fd) == ForwardedFrom(s, fd)
  {
  }

  lemma ForwardCounts(strict: bool, s: State, t: nat, fd: nat)
    requires Inv(strict, s) && Enabled(s, Forward(t)) && Counted(s, fd)
    ensures Counted(Next(strict, s, Forward(t)), fd)
  {
    assert ThreadFine(s, s.threads[t]);
    var f := Forwarded(t, s.threads[t].pc.from, s.threads[t].pc.answer);
    TotalAppend(CameFrom(fd), s.forwards, [f]);
    TotalOne(CameFrom(fd), f);
  }

  lemma {:induction false} ForwardsCounted(strict: bool, steps: seq<Step>, fd: nat)
    requires CanRun(strict, INITIAL, steps)
    ensures Counted(After(strict, INITIAL, steps), fd)
  {
    if steps != [] {
      var k := |steps| - 1;
      var s := After(strict, INITIAL, steps[..k]);
      ForwardsCounted(strict, steps[..k], fd);
      Reachable(strict, steps[..k]);
      if steps[k].Forward? {
        ForwardCounts(strict, s, steps[k].t, fd);
      } else {
        OtherStepsForwardNothing(strict, s, steps[k], fd);
      }
    }
  }

  lemma ReachableCounted(strict: bool, s: State, fd: nat)
    requires IsReachable(strict, s)
    ensures Counted(s, fd)
  {
    var steps :| CanRun(strict, INITIAL, steps) && s == After(strict, INITIAL, steps);
    ForwardsCounted(strict, steps, fd);
  }

  /** Every answer passed to a caller that invited channel fd is the description of the client that
      listens on fd. */
  lemma AnswersAreTheCallees(strict: bool, s: State, k: nat)
    requires IsReachable(strict, s) && k < |s.forwards|
    ensures s.Connected(s.forwards[k].from) && s.forwards[k].sdp == s.channels[s.forwards[k].from].localSdp
  {
    ReachableFine(strict, s);
    assert ForwardFine(s, s.forwards[k]);
  }

  /** No more answers are passed on from a channel than INVITEs were sent to it. */
  lemma AnswersNeverExceedInvites(strict: bool, s: State, fd: nat)
    requires IsReachable(strict, s) && fd < |s.channels|
    ensures Total(CameFrom(fd), s.forwards) <= s.channels[fd].invited
  {
    ReachableFine(strict, s);
    ReachableCounted(strict, s, fd);
    assert ChannelFine(strict, s, fd);
  }

  // ---- The look-ups of a call ----

  lemma {:induction false} RunGrows(strict: bool, s: State, steps: seq<Step>)
    requires CanRun(strict, s, steps)
    ensures Grows(s, After(strict, s, steps))
  {
    if steps != [] {
      var k := |steps| - 1;
      RunGrows(strict, s, steps[..k]);
      StepGrows(strict, After(strict, s, steps[..k]), steps[k]);
    }
  }

  /** Once a call has seen its callee logged in, neither of its later look-ups fails, whatever other
      threads did in between: the test for an unknown user never fires and nothing is thrown. */
  lemma LookUpsSucceed(strict: bool, s: State, t: nat)
    requires IsReachable(strict, s) && t < |s.threads|
    ensures Enabled(s, CheckUser(t)) ==> Next(strict, s, CheckUser(t)).threads[t].pc.SawUser?
    ensures Enabled(s, FetchUser(t)) ==>
      var callee := s.threads[t].pc.callee;
      && callee in s.users
      && Next(strict, s, FetchUser(t)).threads[t].pc == Inviting(s.users[callee].socketFd, callee, s.threads[t].pc.sdp)
  {
    ReachableFine(strict, s);
    assert ThreadFine(s, s.threads[t]);
  }

  // ---- The table as a summary of the schedule ----

  /** The name a connection last tried to sign up or log in: empty before the first. */
  function LastTried(steps: seq<Step>, t: nat): string {
    if steps == [] then ""
    else match steps[|steps| - 1]
      case SignUp(u, name, _) => if u == t then name else LastTried(steps[..|steps| - 1], t)
      case LogIn(u, name, _) => if u == t then name else LastTried(steps[..|steps| - 1], t)
      case _ => LastTried(steps[..|steps| - 1], t)
  }

  function Connections(steps: seq<Step>): nat {
    if steps == [] then 0
    else Connections(steps[..|steps| - 1]) + (if steps[|steps| - 1].Connect? then 1 else 0)
  }

  /** The push channel of a connection: that of its last CLIENT message; -1 before the first. */
  function PushChannel(steps: seq<Step>, t: nat): int {
    if steps == [] then -1
    else
      var p := steps[..|steps| - 1];
      match steps[|steps| - 1]
      case Connect(u, _) => if u == t then Connections(p) else PushChannel(p, t)
      case _ => PushChannel(p, t)
  }

  /** The changes a schedule makes to the table: a SIGNUP stores the connection's push channel, and a
      LOGOUT acts on the name its connection last tried. */
  function StoreOps(steps: seq<Step>): seq<Op> {
    if steps == [] then []
    else
      var p := steps[..|steps| - 1];
      match steps[|steps| - 1]
      case SignUp(t, name, password) => StoreOps(p) + [Add(name, password, PushChannel(p, t))]
      case LogIn(t, name, password) => StoreOps(p) + [Op.Login(name, password)]
      case LogOut(t, junk) => StoreOps(p) + [Op.LogOut(LastTried(p, t), junk)]
      case _ => StoreOps(p)
  }

  /** What a schedule says of the connections agrees with what their threads hold. */
  ghost predicate Agrees(s: State, steps: seq<Step>) {
    && |s.channels| == Connections(steps)
    && forall t: nat :: t < |s.threads| ==>
         s.threads[t].name == LastTried(steps, t) && s.threads[t].fd == PushChannel(steps, t)
  }

  lemma {:induction false} ThreadsAreHistory(strict: bool, steps: seq<Step>)
    requires CanRun(strict, INITIAL, steps)
    ensures Agrees(After(strict, INITIAL, steps), steps)
  {
    if steps != [] {
      var k := |steps| - 1;
      ThreadsAreHistory(strict, steps[..k]);
      NewConnection(strict, steps[..k]);
      ThreadsStep(strict, After(strict, INITIAL, steps[..k]), steps[..k], steps);
    }
  }

  lemma ThreadsStep(strict: bool, s: State, p: seq<Step>, steps: seq<Step>)
    requires steps != [] && p == steps[..|steps| - 1] && Agrees(s, p) && Enabled(s, steps[|steps| - 1])
    requires forall t: nat :: t >= |s.threads| ==> NotYet(p, t)
    ensures Agrees(Next(strict, s, steps[|steps| - 1]), steps)
  {
    var step := steps[|steps| - 1];
    var s' := Next(strict, s, step);
    forall t: nat | t < |s'.threads|
      ensures s'.threads[t].name == LastTried(steps, t) && s'.threads[t].fd == PushChannel(steps, t) {
      assert t >= |s.threads| ==> NotYet(p, t);
      assert t < |s.threads| ==> s.threads[t].name == LastTried(p, t) && s.threads[t].fd == PushChannel(p, t);
    }
  }

  /** In every interleaving, the table is the one these operations build, in their order; with
      Accounts.ReplayMeans this says whose password, descriptor and log-in state it holds. */
  lemma {:induction false} TableIsHistory(strict: bool, steps: seq<Step>)
    requires CanRun(strict, INITIAL, steps)
    ensures After(strict, INITIAL, steps).users == Replay(StoreOps(steps))
  {
    if steps != [] {
      var k := |steps| - 1;
      TableIsHistory(strict, steps[..k]);
      ThreadsAreHistory(strict, steps[..k]);
      UsersStep(strict, After(strict, INITIAL, steps[..k]), steps[k]);
      TableStep(strict, After(strict, INITIAL, steps[..k]), steps);
    }
  }

  lemma TableStep(strict: bool, s: State, steps: seq<Step>)
    requires steps != [] && Agrees(s, steps[..|steps| - 1]) && Enabled(s, steps[|steps| - 1])
    requires s.users == Replay(StoreOps(steps[..|steps| - 1]))
    ensures UsersAfter(s, steps[|steps| - 1]) == Replay(StoreOps(steps))
  {
    var p, step := steps[..|steps| - 1], steps[|steps| - 1];
    match step
    case SignUp(t, name, password) => ReplaySnoc(StoreOps(p), Add(name, password, PushChannel(p, t)));
    case LogIn(t, name, password) => ReplaySnoc(StoreOps(p), Op.Login(name, password));
    case LogOut(t, junk) => ReplaySnoc(StoreOps(p), Op.LogOut(LastTried(p, t), junk));
    case _ =>
  }

  /** What a step makes of the table. */
  function UsersAfter(s: State, step: Step): Users
    requires Enabled(s, step)
  {
    match step
    case SignUp(t, name, password) => Apply(s.users, Add(name, password, s.threads[t].fd))
    case LogIn(_, name, password) => Apply(s.users, Op.Login(name, password))
    case LogOut(t, junk) => Apply(s.users, Op.LogOut(s.threads[t].name, junk))
    case _ => s.users
  }

  lemma UsersStep(strict: bool, s: State, step: Step)
    requires Enabled(s, step)
    ensures Next(strict, s, step).users == UsersAfter(s, step)
  {
  }

  lemma ReplaySnoc(ops: seq<Op>, op: Op)
    ensures Replay(ops + [op]) == Apply(Replay(ops), op)
  {
    assert (ops + [op])[..|ops|] == ops;
  }

  /** The connection has tried no name and opened no channel. */
  predicate NotYet(steps: seq<Step>, t: nat) { LastTried(steps, t) == "" && PushChannel(steps, t) == -1 }

  /** A connection not yet accepted has made no request. */
  lemma {:induction false} NewConnection(strict: bool, steps: seq<Step>)
    requires CanRun(strict, INITIAL, steps)
    ensures var s := After(strict, INITIAL, steps);
      forall t: nat :: t >= |s.threads| ==> NotYet(steps, t)
  {
    if steps != [] {
      var p := steps[..|steps| - 1];
      NewConnection(strict, p);
      var s, s' := After(strict, INITIAL, p), After(strict, INITIAL, steps);
      assert |s.threads| <= |s'.threads|;
      forall t: nat | t >= |s'.threads| ensures NotYet(steps, t) { assert NotYet(p, t); }
    }
  }
}
