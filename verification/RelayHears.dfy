/** What a caller hears: exactly the answers passed on to it before what stops its own listener. */
module RelayHears {
  import opened Accounts
  import opened Relay
  import opened RelaySafety
  import opened RelayEnds
  import opened RelayCalls
  import opened RelayAnswers

  // ---- One channel ----

  /** What a message tells the listener: the description in an answer. */
  function Says(p: Push): seq<string> { if p.Answer? then [p.sdp] else [] }

  /** The answers the listener will still hear of these messages. */
  function Hearing(q: seq<Push>): seq<string> {
    if q == [] || StopsListener(q[0]) then [] else Says(q[0]) + Hearing(q[1..])
  }

  lemma {:induction false} HearingAppend(q: seq<Push>, more: seq<Push>)
    ensures Hearing(q + more) == Hearing(q) + (if StopComing(q) then [] else Hearing(more))
  {
    if q == [] {
      assert q + more == more;
    } else {
      assert (q + more)[0] == q[0] && (q + more)[1..] == q[1..] + more;
      HeadStops(q);
      if !StopsListener(q[0]) {
        HearingAppend(q[1..], more);
        Regroup(Says(q[0]), Hearing(q[1..]), if StopComing(q) then [] else Hearing(more));
      }
    }
  }

  lemma Regroup(a: seq<string>, b: seq<string>, c: seq<string>)
    ensures a + (b + c) == (a + b) + c
  {
  }

  lemma HearingOne(p: Push)
    ensures Hearing([p]) == Says(p)
  {
    assert [p][1..] == [];
  }

  /** The answers heard, and those still to be heard of what is on its way. */
  function Told(c: Channel): seq<string> { c.heard + Hearing(c.toClient) }

  lemma ListenKeepsTold(c: Channel)
    requires c.listening && c.toClient != []
    ensures Told(c.Listen()) == Told(c)
  {
  }

  lemma SendTells(c: Channel, p: Push)
    requires c.listening || c.toClient == []
    ensures Told(c.Send([p])) == Told(c) + (if p.Answer? && Open(c) then [p.sdp] else [])
  {
    HearingAppend(c.toClient, [p]);
    HearingOne(p);
  }

  lemma InviteTells(strict: bool, c: Channel, callee: string, sdp: string)
    requires c.listening || c.toClient == []
    ensures Told(c.SendInvite(strict, callee, sdp)) == Told(c)
  {
    var invite := Invite(callee, sdp);
    var more := if strict then [Blank] else [];
    HearingAppend(c.toClient, [invite] + more);
    HearingAppend([invite], more);
    HearingOne(invite);
    HearingOne(Blank);
  }

  // ---- What a schedule passes on ----

  /** The step passes an answer on to the client of channel fd. */
  predicate PassesOn(s: State, step: Step, fd: nat) {
    step.Forward? && Enabled(s, step) && s.threads[step.t].fd == fd
  }

  /** The answers passed on to the client of channel fd before anything that stops its listener. */
  function PassedInTime(strict: bool, steps: seq<Step>, fd: nat): seq<string>
    requires CanRun(strict, INITIAL, steps)
    decreases |steps|
  {
    if steps == [] then []
    else
      var p, step := steps[..|steps| - 1], steps[|steps| - 1];
      var s := After(strict, INITIAL, p);
      PassedInTime(strict, p, fd)
      + (if PassesOn(s, step, fd) && !StopSent(strict, p, fd) then [s.threads[step.t].pc.answer] else [])
  }

  // ---- The two agree ----

  /** Every step but a crash changes what a channel will have heard exactly by the answer passed on to it. */
  lemma StepTells(strict: bool, s: State, step: Step, fd: nat)
    requires Inv(strict, s) && Enabled(s, step) && fd < |s.channels| && !(step.Crash? && step.fd == fd)
    ensures Told(ChannelAfter(strict, s, step, fd))
         == Told(s.channels[fd])
            + (if PassesOn(s, step, fd) && Open(s.channels[fd]) then [s.threads[step.t].pc.answer] else [])
  {
    var c := s.channels[fd];
    assert ChannelFine(strict, s, fd);
    assert Told(c) + [] == Told(c);
    match step
    case Listen(on) => if on == fd { ListenKeepsTold(c); }
    case SendInvite(t) => InviteTells(strict, c, s.threads[t].pc.callee, s.threads[t].pc.sdp);
    case Exit(t) => SendTells(c, Bye);
    case Forward(t) =>
      SendTells(c, Answer(s.threads[t].pc.answer));
      SendTells(c.CountForward(), Answer(s.threads[t].pc.answer));
    case _ =>
  }

  /** A channel whose listener crashed has stopped listening for good. */
  lemma {:induction false} CrashedIsGone(strict: bool, steps: seq<Step>, fd: nat)
    requires CanRun(strict, INITIAL, steps) && Crashes(steps, fd)
    ensures var s := After(strict, INITIAL, steps); fd < |s.channels| && !s.channels[fd].listening
  {
    var k := |steps| - 1;
    var s := After(strict, INITIAL, steps[..k]);
    CrashesSnoc(steps, fd);
    if Crashes(steps[..k], fd) {
      CrashedIsGone(strict, steps[..k], fd);
    }
    ChannelStep(strict, s, steps[k], fd);
  }

  /** The answers a step passes on to channel fd in time. */
  function Adds(s: State, step: Step, fd: nat, stopped: bool): seq<string> {
    if PassesOn(s, step, fd) && !stopped then [s.threads[step.t].pc.answer] else []
  }

  /** A channel will have heard what was passed on in time; a crash may cut that short. */
  predicate HearsRight(c: Channel, passed: seq<string>, crashed: bool) {
    Told(c) <= passed && (!crashed ==> Told(c) == passed)
  }

  lemma StepHearsRight(strict: bool, s: State, step: Step, fd: nat, passed: seq<string>, stopped: bool, crashed: bool)
    requires Inv(strict, s) && Enabled(s, step) && fd < |s.channels| && HearsRight(s.channels[fd], passed, crashed)
    requires if crashed then !s.channels[fd].listening else Open(s.channels[fd]) <==> !stopped
    ensures HearsRight(ChannelAfter(strict, s, step, fd), passed + Adds(s, step, fd, stopped),
                       crashed || (step.Crash? && step.fd == fd))
  {
    if step.Crash? && step.fd == fd {
      assert Told(ChannelAfter(strict, s, step, fd)) <= Told(s.channels[fd]);
    } else {
      StepTells(strict, s, step, fd);
    }
  }

  lemma {:induction false} ToldIsPassed(strict: bool, steps: seq<Step>, fd: nat)
    requires CanRun(strict, INITIAL, steps)
    ensures var s, passed := After(strict, INITIAL, steps), PassedInTime(strict, steps, fd);
      if fd < |s.channels| then HearsRight(s.channels[fd], passed, Crashes(steps, fd)) else passed == []
  {
    if steps != [] {
      var k := |steps| - 1;
      var p, s := steps[..k], After(strict, INITIAL, steps[..k]);
      ToldIsPassed(strict, p, fd);
      Reachable(strict, p);
      CrashesSnoc(steps, fd);
      assert PassedInTime(strict, steps, fd)
          == PassedInTime(strict, p, fd) + Adds(s, steps[k], fd, StopSent(strict, p, fd));
      if fd >= |s.channels| {
        NonePassedYet(strict, s, steps[k], fd);
      } else {
        ChannelStep(strict, s, steps[k], fd);
        GivenIsAsked(strict, p, fd);
        if Crashes(p, fd) {
          CrashedIsGone(strict, p, fd);
        }
        StepHearsRight(strict, s, steps[k], fd, PassedInTime(strict, p, fd), StopSent(strict, p, fd), Crashes(p, fd));
      }
    }
  }

  lemma NonePassedYet(strict: bool, s: State, step: Step, fd: nat)
    requires Inv(strict, s) && Enabled(s, step) && fd >= |s.channels|
    ensures !PassesOn(s, step, fd)
    ensures fd < |Next(strict, s, step).channels| ==> Told(Next(strict, s, step).channels[fd]) == []
  {
    if step.Forward? {
      assert ThreadFine(s, s.threads[step.t]);
    }
    HearingOne(Hello);
  }

  /** In every run a client hears, in order, no more than what was passed on to it in time; and once
      nothing more can happen by itself, a client that did not crash has heard exactly that. */
  lemma {:induction false} HeardExactly(strict: bool, steps: seq<Step>, fd: nat)
    requires CanRun(strict, INITIAL, steps) && fd < |After(strict, INITIAL, steps).channels|
    ensures var s := After(strict, INITIAL, steps);
      && s.channels[fd].heard <= PassedInTime(strict, steps, fd)
      && (Stuck(s) && !Crashes(steps, fd) ==> s.channels[fd].heard == PassedInTime(strict, steps, fd))
  {
    var s := After(strict, INITIAL, steps);
    ToldIsPassed(strict, steps, fd);
    assert s.channels[fd].heard <= Told(s.channels[fd]);
    if Stuck(s) {
      Reachable(strict, steps);
      StuckIsQuiet(strict, s, fd);
    }
  }

  // ---- Who is invited hears no more ----

  /** With INVITEs that take two frames, each of them stops the listener it is sent to. */
  lemma {:induction false} InvitedIsStopped(steps: seq<Step>, fd: nat)
    requires CanRun(true, INITIAL, steps) && fd < |After(true, INITIAL, steps).channels|
    requires After(true, INITIAL, steps).channels[fd].invited > 0
    ensures StopSent(true, steps, fd)
  {
    var k := |steps| - 1;
    var s := After(true, INITIAL, steps[..k]);
    if fd < |s.channels| {
      StepInvited(true, s, steps[k], fd);
      if s.channels[fd].invited > 0 {
        InvitedIsStopped(steps[..k], fd);
      }
    } else {
      OpenAtFirst(true, s, steps[k], fd);
    }
  }

  lemma {:induction false} NothingInTimeAfterStop(strict: bool, steps: seq<Step>, k: nat, fd: nat)
    requires k <= |steps| && CanRun(strict, INITIAL, steps) && CanRun(strict, INITIAL, steps[..k])
    requires StopSent(strict, steps[..k], fd)
    ensures StopSent(strict, steps, fd) && PassedInTime(strict, steps, fd) == PassedInTime(strict, steps[..k], fd)
  {
    if k == |steps| {
      assert steps[..k] == steps;
    } else {
      var n := |steps| - 1;
      assert steps[..n][..k] == steps[..k];
      NothingInTimeAfterStop(strict, steps[..n], k, fd);
    }
  }

  /** With two-frame INVITEs, a client that was sent one hears no answer that is passed on after it,
      however often it calls: in every continuation it hears at most what was passed on before. */
  lemma {:induction false} InvitedHearsNoMore(steps: seq<Step>, k: nat, fd: nat)
    requires k <= |steps| && CanRun(true, INITIAL, steps) && CanRun(true, INITIAL, steps[..k])
    requires var s := After(true, INITIAL, steps[..k]); fd < |s.channels| && s.channels[fd].invited > 0
    requires fd < |After(true, INITIAL, steps).channels|
    ensures After(true, INITIAL, steps).channels[fd].heard <= PassedInTime(true, steps[..k], fd)
  {
    InvitedIsStopped(steps[..k], fd);
    NothingInTimeAfterStop(true, steps, k, fd);
    HeardExactly(true, steps, fd);
  }
}
