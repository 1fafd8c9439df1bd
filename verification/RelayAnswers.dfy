/** How many calls a client answers: exactly those that reach its listener before what stops it. */
module RelayAnswers {
  import opened Totals
  import opened Relay
  import opened RelaySafety
  import opened RelayRuns
  import opened RelayEnds

  // ---- One channel ----

  predicate StopsListener(p: Push) { p.Blank? || p.Bye? }

  /** How many INVITEs the listener will answer of these messages. */
  function Due(q: seq<Push>): nat {
    if q == [] || StopsListener(q[0]) then 0 else (if q[0].Invite? then 1 else 0) + Due(q[1..])
  }

  /** A message on its way will stop the listener. */
  ghost predicate StopComing(q: seq<Push>) { exists i :: 0 <= i < |q| && StopsListener(q[i]) }

  /** The answers given, and those still to be given to what is on its way. */
  function Given(c: Channel): nat { c.answered + Due(c.toClient) }

  /** An INVITE sent now will be answered. */
  ghost predicate Open(c: Channel) { c.listening && !StopComing(c.toClient) }

  lemma {:induction false} DueAppend(q: seq<Push>, more: seq<Push>)
    ensures Due(q + more) == Due(q) + (if StopComing(q) then 0 else Due(more))
    ensures StopComing(q + more) <==> StopComing(q) || StopComing(more)
  {
    assert forall i :: 0 <= i < |q| ==> (q + more)[i] == q[i];
    assert forall i :: 0 <= i < |more| ==> (q + more)[|q| + i] == more[i];
    if q == [] {
      assert q + more == more;
    } else {
      assert (q + more)[1..] == q[1..] + more;
      DueAppend(q[1..], more);
      HeadStops(q);
    }
  }

  lemma HeadStops(q: seq<Push>)
    requires q != []
    ensures StopComing(q) <==> StopsListener(q[0]) || StopComing(q[1..])
  {
    assert forall i :: 1 <= i < |q| ==> q[i] == q[1..][i - 1];
  }

  lemma StopOne(p: Push)
    ensures StopComing([p]) <==> StopsListener(p)
    ensures Due([p]) == if p.Invite? then 1 else 0
  {
    assert [p][0] == p;
    assert [p][1..] == [];
  }

  /** Taking a message changes neither what will have been given nor whether more will be. */
  lemma ListenKeepsGiven(c: Channel)
    requires c.listening && c.toClient != []
    ensures Given(c.Listen()) == Given(c) && (Open(c.Listen()) <==> Open(c))
  {
    HeadStops(c.toClient);
  }

  lemma SendKeepsGiven(c: Channel, p: Push)
    requires !p.Invite?
    ensures Given(c.Send([p])) == Given(c) && (Open(c.Send([p])) <==> Open(c) && !StopsListener(p))
  {
    DueAppend(c.toClient, [p]);
    StopOne(p);
  }

  lemma InviteGiven(strict: bool, c: Channel, callee: string, sdp: string)
    ensures var c' := c.SendInvite(strict, callee, sdp);
      Given(c') == Given(c) + (if Open(c) then 1 else 0) && (Open(c') <==> Open(c) && !strict)
  {
    var invite := Invite(callee, sdp);
    var more := [invite] + (if strict then [Blank] else []);
    DueAppend(c.toClient, more);
    DueAppend([invite], if strict then [Blank] else []);
    StopOne(invite);
    StopOne(Blank);
  }

  // ---- What a schedule sends to a channel ----

  /** The step sends an INVITE to channel fd. */
  predicate Invites(s: State, step: Step, fd: nat) {
    step.SendInvite? && Enabled(s, step) && s.threads[step.t].pc.to == fd
  }

  /** The step sends EXIT to channel fd. */
  predicate Leaves(s: State, step: Step, fd: nat) { step.Exit? && Enabled(s, step) && s.threads[step.t].fd == fd }

  /** The client of channel fd was told to EXIT. */
  predicate HasLeft(strict: bool, steps: seq<Step>, fd: nat)
    requires CanRun(strict, INITIAL, steps)
    decreases |steps|
  {
    steps != [] &&
    var p := steps[..|steps| - 1];
    HasLeft(strict, p, fd) || Leaves(After(strict, INITIAL, p), steps[|steps| - 1], fd)
  }

  /** Something was sent to channel fd that stops its listener: EXIT, or the blank half of an INVITE. */
  predicate StopSent(strict: bool, steps: seq<Step>, fd: nat)
    requires CanRun(strict, INITIAL, steps)
    decreases |steps|
  {
    steps != [] &&
    var p, step := steps[..|steps| - 1], steps[|steps| - 1];
    var s := After(strict, INITIAL, p);
    StopSent(strict, p, fd) || Leaves(s, step, fd) || (strict && Invites(s, step, fd))
  }

  /** How many INVITEs were sent to channel fd before what stops its listener. */
  function Asked(strict: bool, steps: seq<Step>, fd: nat): nat
    requires CanRun(strict, INITIAL, steps)
    decreases |steps|
  {
    if steps == [] then 0
    else
      var p, step := steps[..|steps| - 1], steps[|steps| - 1];
      Asked(strict, p, fd)
      + (if Invites(After(strict, INITIAL, p), step, fd) && !StopSent(strict, p, fd) then 1 else 0)
  }

  ghost predicate Crashes(steps: seq<Step>, fd: nat) {
    exists i :: 0 <= i < |steps| && steps[i].Crash? && steps[i].fd == fd
  }

  ghost predicate Loses(steps: seq<Step>, fd: nat) {
    exists i :: 0 <= i < |steps| && steps[i].Lose? && steps[i].fd == fd
  }

  // ---- The two agree ----

  /** What a step makes of one channel. */
  function ChannelAfter(strict: bool, s: State, step: Step, fd: nat): Channel
    requires Enabled(s, step) && fd < |s.channels|
  {
    var c := s.channels[fd];
    match step
    case SendInvite(t) =>
      var pc := s.threads[t].pc;
      if pc.to == fd then c.SendInvite(strict, pc.callee, pc.sdp) else c
    case Receive(t) => if s.threads[t].pc.on == fd then c.Receive() else c
    case HangUp(t) => if s.threads[t].pc.on == fd then c.CountHangUp() else c
    case Forward(t) =>
      var pc := s.threads[t].pc;
      var c' := if pc.from == fd then c.CountForward() else c;
      if s.threads[t].fd == fd then c'.Send([Answer(pc.answer)]) else c'
    case Exit(t) => if s.threads[t].fd == fd then c.Send([Bye]) else c
    case Listen(on) => if on == fd then c.Listen() else c
    case Crash(on, keep) => if on == fd then c.Close(keep) else c
    case Lose(on) => if on == fd then c.Close(false) else c
    case _ => c
  }

  lemma ChannelStep(strict: bool, s: State, step: Step, fd: nat)
    requires Enabled(s, step) && fd < |s.channels|
    ensures fd < |Next(strict, s, step).channels|
    ensures Next(strict, s, step).channels[fd] == ChannelAfter(strict, s, step, fd)
  {
  }

  /** Every step but a crash changes what a channel will have given exactly by the INVITE it sends. */
  lemma StepGiven(strict: bool, s: State, step: Step, fd: nat)
    requires Inv(strict, s) && Enabled(s, step) && fd < |s.channels| && !(step.Crash? && step.fd == fd)
    ensures var c, c' := s.channels[fd], ChannelAfter(strict, s, step, fd);
      && Given(c') == Given(c) + (if Invites(s, step, fd) && Open(c) then 1 else 0)
      && (Open(c') <==> Open(c) && !Leaves(s, step, fd) && !(strict && Invites(s, step, fd)))
  {
    var c := s.channels[fd];
    match step
    case Listen(on) => if on == fd { ListenKeepsGiven(c); }
    case SendInvite(t) => InviteGiven(strict, c, s.threads[t].pc.callee, s.threads[t].pc.sdp);
    case Exit(t) => SendKeepsGiven(c, Bye);
    case Forward(t) =>
      SendKeepsGiven(c, Answer(s.threads[t].pc.answer));
      SendKeepsGiven(c.CountForward(), Answer(s.threads[t].pc.answer));
    case Lose(on) => assert ChannelFine(strict, s, fd);
    case _ =>
  }

  ghost predicate Agreed(strict: bool, steps: seq<Step>, fd: nat)
    requires CanRun(strict, INITIAL, steps)
  {
    var s, asked, stopped := After(strict, INITIAL, steps), Asked(strict, steps, fd), StopSent(strict, steps, fd);
    if fd < |s.channels| then
      !Crashes(steps, fd) ==> Given(s.channels[fd]) == asked && (Open(s.channels[fd]) <==> !stopped)
    else asked == 0 && !stopped
  }

  lemma {:induction false} GivenIsAsked(strict: bool, steps: seq<Step>, fd: nat)
    requires CanRun(strict, INITIAL, steps)
    ensures Agreed(strict, steps, fd)
  {
    if steps != [] {
      var k := |steps| - 1;
      var s := After(strict, INITIAL, steps[..k]);
      GivenIsAsked(strict, steps[..k], fd);
      Reachable(strict, steps[..k]);
      if fd < |s.channels| {
        CrashesSnoc(steps, fd);
        ChannelStep(strict, s, steps[k], fd);
        if !Crashes(steps, fd) {
          StepGiven(strict, s, steps[k], fd);
        }
      } else {
        NothingSentYet(s, steps[k], fd, strict);
        if fd < |After(strict, INITIAL, steps).channels| {
          OpenAtFirst(strict, s, steps[k], fd);
        }
      }
    }
  }

  lemma CrashesSnoc(steps: seq<Step>, fd: nat)
    requires steps != []
    ensures var k := |steps| - 1;
      Crashes(steps, fd) <==> Crashes(steps[..k], fd) || (steps[k].Crash? && steps[k].fd == fd)
  {
  }

  /** Nothing can be sent to a channel that is not open yet. */
  lemma NothingSentYet(s: State, step: Step, fd: nat, strict: bool)
    requires Inv(strict, s) && Enabled(s, step) && fd >= |s.channels|
    ensures !Invites(s, step, fd) && !Leaves(s, step, fd)
  {
    if step.SendInvite? || step.Exit? {
      assert ThreadFine(s, s.threads[step.t]);
    }
  }

  lemma OpenAtFirst(strict: bool, s: State, step: Step, fd: nat)
    requires Enabled(s, step) && |s.channels| <= fd < |Next(strict, s, step).channels|
    ensures var c := Next(strict, s, step).channels[fd]; Given(c) == 0 && Open(c) && c.lost == 0 && c.invited == 0
  {
    StopOne(Hello);
  }

  // ---- What becomes of the answers ----

  lemma {:induction false} LostOnlyByLoss(strict: bool, steps: seq<Step>, fd: nat)
    requires CanRun(strict, INITIAL, steps) && !Crashes(steps, fd) && !Loses(steps, fd)
    requires fd < |After(strict, INITIAL, steps).channels|
    ensures After(strict, INITIAL, steps).channels[fd].lost == 0
  {
    var k := |steps| - 1;
    var s := After(strict, INITIAL, steps[..k]);
    CrashesSnoc(steps, fd);
    assert !(steps[k].Lose? && steps[k].fd == fd);
    if fd < |s.channels| {
      LostOnlyByLoss(strict, steps[..k], fd);
      StepLoses(strict, s, steps[k], fd);
    } else {
      OpenAtFirst(strict, s, steps[k], fd);
    }
  }

  lemma StepLoses(strict: bool, s: State, step: Step, fd: nat)
    requires Enabled(s, step) && fd < |s.channels| && !((step.Crash? || step.Lose?) && step.fd == fd)
    ensures Next(strict, s, step).channels[fd].lost == s.channels[fd].lost
  {
    ChannelStep(strict, s, step, fd);
  }

  /** Once nothing more can happen by itself, a client that did not crash has answered exactly the
      INVITEs sent to it before what stops its listener; each answer was passed on to its caller's
      channel unless it was lost with the connection; and for every other caller there was none. Which
      of the answers passed on are heard, RelayHears says. */
  lemma {:induction false} AnswersExactly(strict: bool, steps: seq<Step>, fd: nat)
    requires CanRun(strict, INITIAL, steps) && Stuck(After(strict, INITIAL, steps)) && !Crashes(steps, fd)
    requires fd < |After(strict, INITIAL, steps).channels|
    ensures var s := After(strict, INITIAL, steps); var c := s.channels[fd];
      && c.answered == Asked(strict, steps, fd)
      && Total(CameFrom(fd), s.forwards) + c.lost == c.answered
      && Total(CameFrom(fd), s.forwards) + c.hungUp == c.invited
      && (!Loses(steps, fd) ==> c.lost == 0)
  {
    var s := After(strict, INITIAL, steps);
    Reachable(strict, steps);
    GivenIsAsked(strict, steps, fd);
    ForwardsCounted(strict, steps, fd);
    StuckIsQuiet(strict, s, fd);
    if !Loses(steps, fd) {
      LostOnlyByLoss(strict, steps, fd);
    }
  }

  lemma StuckIsQuiet(strict: bool, s: State, fd: nat)
    requires Inv(strict, s) && Stuck(s) && fd < |s.channels|
    ensures var c := s.channels[fd];
      && c.toClient == [] && c.toServer == []
      && c.invited == c.forwarded + c.hungUp && c.answered == c.forwarded + c.lost
  {
    StuckIsOver(strict, s);
    assert !Enabled(s, Listen(fd));
    TotalZero(WaitsOn(fd), s.threads);
    TotalZero(AnswersFrom(fd), s.threads);
    assert ChannelFine(strict, s, fd);
  }

  /** How many INVITEs count, unless the client is told to EXIT: all of them, or with two frames the first. */
  ghost predicate CountsInvites(strict: bool, steps: seq<Step>, fd: nat, invited: nat)
    requires CanRun(strict, INITIAL, steps)
  {
    var asked := Asked(strict, steps, fd);
    && (strict ==> asked <= 1)
    && asked <= invited
    && (!HasLeft(strict, steps, fd) ==>
          && (StopSent(strict, steps, fd) <==> strict && invited > 0)
          && asked == if strict && invited > 0 then 1 else invited)
    && (strict && asked == 1 ==> StopSent(strict, steps, fd))
  }

  lemma {:induction false} AskedIsInvited(strict: bool, steps: seq<Step>, fd: nat)
    requires CanRun(strict, INITIAL, steps)
    ensures var s := After(strict, INITIAL, steps);
      CountsInvites(strict, steps, fd, if fd < |s.channels| then s.channels[fd].invited else 0)
  {
    if steps != [] {
      var k := |steps| - 1;
      var s := After(strict, INITIAL, steps[..k]);
      AskedIsInvited(strict, steps[..k], fd);
      Reachable(strict, steps[..k]);
      if fd < |s.channels| {
        StepInvited(strict, s, steps[k], fd);
      } else {
        NothingSentYet(s, steps[k], fd, strict);
      }
    }
  }

  lemma StepInvited(strict: bool, s: State, step: Step, fd: nat)
    requires Enabled(s, step) && fd < |s.channels|
    ensures fd < |Next(strict, s, step).channels|
    ensures Next(strict, s, step).channels[fd].invited
         == s.channels[fd].invited + (if Invites(s, step, fd) then 1 else 0)
  {
    ChannelStep(strict, s, step, fd);
  }

  /** With INVITEs that take two frames, a client answers at most one call for as long as it runs. It
      answers one, and the answer is passed on to its caller's channel, exactly when an INVITE was sent
      to it before EXIT; so unless it is told to EXIT, exactly when any was. */
  lemma {:induction false} TwoFramesOneAnswer(steps: seq<Step>, fd: nat)
    requires CanRun(true, INITIAL, steps) && fd < |After(true, INITIAL, steps).channels|
    ensures var s := After(true, INITIAL, steps); var answers := Total(CameFrom(fd), s.forwards);
      && answers <= 1
      && (Stuck(s) && !Crashes(steps, fd) && !Loses(steps, fd) ==>
            && answers == s.channels[fd].answered == Asked(true, steps, fd)
            && (!HasLeft(true, steps, fd) ==> answers == if s.channels[fd].invited == 0 then 0 else 1))
  {
    var s := After(true, INITIAL, steps);
    Reachable(true, steps);
    ForwardsCounted(true, steps, fd);
    assert ChannelFine(true, s, fd);
    AskedIsInvited(true, steps, fd);
    if Stuck(s) && !Crashes(steps, fd) && !Loses(steps, fd) {
      AnswersExactly(true, steps, fd);
    }
  }
}
