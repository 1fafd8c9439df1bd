/** The push channels byte by byte: what a listener reads out of its connection, frame by frame, are
    the messages of the relay model, on whole runs. */
module RelayBytes {
  import opened Text
  import opened Wire
  import opened Frames
  import opened Relay
  import opened RelaySafety
  import opened RelayAnswers
  import Client
  import opened HandlerSteps

  // ---- What the server sends ----

  /** A text in a zeroed buffer; the code keeps inside it when the text is shorter. */
  function InBuffer(text: string, size: nat): seq<char> {
    if |text| <= size then Frame(text, size) else text[..size]
  }

  /** EXIT is sent with its terminator only. */
  const EXIT_BYTES: seq<char> := "EXIT" + [NUL]

  /** The bytes a step sends on push channel fd. */
  function Sent(s: State, step: Step, fd: nat): seq<char>
    requires Enabled(s, step)
  {
    match step
    case Connect(_, _) => if fd == |s.channels| then InBuffer(Client.PushText(Hello), BUFFER_SIZE) else []
    case SendInvite(t) =>
      var pc := s.threads[t].pc;
      if pc.to == fd then InBuffer(NamedText("INVITE", pc.callee, pc.sdp), 2 * BUFFER_SIZE) else []
    case Forward(t) =>
      if s.threads[t].fd == fd then InBuffer(AcceptText(s.threads[t].pc.answer), BUFFER_SIZE) else []
    case Exit(t) => if s.threads[t].fd == fd then EXIT_BYTES else []
    case _ => []
  }

  /** The bytes sent on fd and not yet read; a listener reads a full frame, or what there is. */
  function InFlight(steps: seq<Step>, fd: nat): seq<char>
    requires CanRun(true, INITIAL, steps)
    decreases |steps|
  {
    if steps == [] then []
    else
      var p, step := steps[..|steps| - 1], steps[|steps| - 1];
      var b := InFlight(p, fd);
      if step == Listen(fd) then b[if |b| < BUFFER_SIZE then |b| else BUFFER_SIZE..]
      else b + Sent(After(true, INITIAL, p), step, fd)
  }

  // ---- Messages as bytes ----

  function PushBytes(p: Push): seq<char> {
    if p.Bye? then EXIT_BYTES else InBuffer(Client.PushText(p), BUFFER_SIZE)
  }

  function Bytes(q: seq<Push>): seq<char> {
    if q == [] then [] else PushBytes(q[0]) + Bytes(q[1..])
  }

  lemma {:induction false} BytesAppend(q: seq<Push>, more: seq<Push>)
    ensures Bytes(q + more) == Bytes(q) + Bytes(more)
  {
    if q == [] {
      assert q + more == more;
    } else {
      assert (q + more)[0] == q[0] && (q + more)[1..] == q[1..] + more;
      BytesAppend(q[1..], more);
      assert PushBytes(q[0]) + (Bytes(q[1..]) + Bytes(more)) == PushBytes(q[0]) + Bytes(q[1..]) + Bytes(more);
    }
  }

  lemma BytesOne(p: Push)
    ensures Bytes([p]) == PushBytes(p)
  {
    assert [p][1..] == [];
    assert PushBytes(p) + [] == PushBytes(p);
  }

  /** A text that one frame can carry. */
  predicate Fits(text: string) { NUL !in text && |text| < BUFFER_SIZE }

  predicate FitsInvite(callee: string, sdp: string) { Fits(NamedText("INVITE", callee, sdp)) }

  predicate FitsAnswer(sdp: string) { Fits(AcceptText(sdp)) }

  predicate PushFits(p: Push) {
    match p
    case Invite(callee, sdp) => FitsInvite(callee, sdp)
    case Answer(sdp) => FitsAnswer(sdp)
    case _ => true
  }

  lemma PushTextFits(p: Push)
    requires PushFits(p)
    ensures Fits(Client.PushText(p))
  {
  }

  ghost predicate AllFit(q: seq<Push>) { forall i :: 0 <= i < |q| ==> PushFits(q[i]) }

  /** The messages up to and including the first that stops the listener. */
  function TillStop(q: seq<Push>): seq<Push> {
    if q == [] then [] else if StopsListener(q[0]) then [q[0]] else [q[0]] + TillStop(q[1..])
  }

  /** A frame in front is read as its text, and the rest is read on its own. */
  lemma FrameFirst(text: string, rest: seq<char>)
    requires Fits(text)
    ensures ReadFrames(InBuffer(text, BUFFER_SIZE) + rest) == [text] + ReadFrames(rest)
  {
    var f := InBuffer(text, BUFFER_SIZE);
    CStrOfFrame(text, BUFFER_SIZE);
    assert |f| == BUFFER_SIZE && (f + rest)[..BUFFER_SIZE] == f && (f + rest)[BUFFER_SIZE..] == rest;
    if rest == [] {
      assert f + rest == f;
      assert [text] + [] == [text];
    }
  }

  /** EXIT in front is read as such, whatever follows in its frame. */
  lemma ExitFirst(rest: seq<char>)
    ensures var r := ReadFrames(EXIT_BYTES + rest); r != [] && r[0] == "EXIT"
  {
    var b := EXIT_BYTES + rest;
    var frame := if |b| <= BUFFER_SIZE then b else b[..BUFFER_SIZE];
    assert frame[..4] == "EXIT" && frame[4] == NUL;
    IndexOfIs(frame, NUL, 4);
  }

  lemma TextsCons(p: Push, rest: seq<Push>)
    ensures Texts([p] + rest) == [Client.PushText(p)] + Texts(rest)
  {
  }

  /** What the listener will read of these bytes are the texts of these messages. */
  ghost predicate ReadsAs(b: seq<char>, q: seq<Push>) {
    && Texts(TillStop(q)) <= ReadFrames(b)
    && (!StopComing(q) ==> ReadFrames(b) == Texts(q))
  }

  lemma FrameReads(p: Push, rest: seq<Push>, b: seq<char>, text: string)
    requires text == Client.PushText(p) && Fits(text) && !p.Bye? && (p.Blank? || ReadsAs(b, rest))
    ensures ReadsAs(InBuffer(text, BUFFER_SIZE) + b, [p] + rest)
  {
    var q := [p] + rest;
    assert q[1..] == rest;
    HeadStops(q);
    FrameFirst(text, b);
    TextsCons(p, []);
    TextsCons(p, rest);
    TextsCons(p, TillStop(rest));
    assert [p] + [] == [p];
    var none: seq<string> := [];
    assert [text] + none == [text];
  }

  lemma ExitReads(rest: seq<Push>, b: seq<char>)
    ensures ReadsAs(EXIT_BYTES + b, [Bye] + rest)
  {
    ExitFirst(b);
    assert ([Bye] + rest)[0] == Bye;
    assert Texts([Bye]) == ["EXIT"];
  }

  lemma {:induction false} FramesAreTexts(q: seq<Push>)
    requires AllFit(q)
    ensures ReadsAs(Bytes(q), q)
  {
    if q != [] {
      var p, rest := q[0], q[1..];
      assert q == [p] + rest;
      if p.Bye? {
        ExitReads(rest, Bytes(rest));
      } else {
        assert forall i :: 0 <= i < |rest| ==> rest[i] == q[i + 1];
        FramesAreTexts(rest);
        PushTextFits(p);
        FrameReads(p, rest, Bytes(rest), Client.PushText(p));
      }
    }
  }

  // ---- Whole runs ----

  /** A CLIENT or CALL whose description, as an answer or in an INVITE, one frame can carry. */
  predicate Carries(step: Step) {
    match step
    case Connect(_, localSdp) => FitsAnswer(localSdp)
    case Call(_, callee, sdp) => FitsInvite(callee, sdp)
    case _ => true
  }

  predicate PcFits(pc: Pc) {
    match pc
    case SawLogin(callee, sdp) => FitsInvite(callee, sdp)
    case SawUser(callee, sdp) => FitsInvite(callee, sdp)
    case Inviting(_, callee, sdp) => FitsInvite(callee, sdp)
    case Answering(_, answer) => FitsAnswer(answer)
    case _ => true
  }

  ghost predicate StateFits(s: State) {
    && (forall t :: 0 <= t < |s.threads| ==> PcFits(s.threads[t].pc))
    && (forall fd: nat :: fd < |s.channels| ==> FitsAnswer(s.channels[fd].localSdp) && AllFit(s.channels[fd].toClient))
  }

  lemma ThreadStepFits(s: State, step: Step, t: nat)
    requires Inv(true, s) && StateFits(s) && Enabled(s, step) && Carries(step)
    requires t < |Next(true, s, step).threads|
    ensures PcFits(Next(true, s, step).threads[t].pc)
  {
    if step.Receive? {
      assert ChannelFine(true, s, s.threads[step.t].pc.on);
    } else if t < |s.threads| {
      assert PcFits(s.threads[t].pc);
    }
  }

  lemma ChannelStepFits(s: State, step: Step, fd: nat)
    requires StateFits(s) && Enabled(s, step) && fd < |s.channels|
    ensures FitsAnswer(ChannelAfter(true, s, step, fd).localSdp) && AllFit(ChannelAfter(true, s, step, fd).toClient)
  {
  }

  /** A step keeps the bytes in flight to a listener the bytes of its messages. */
  lemma StepBytes(s: State, step: Step, fd: nat)
    requires StateFits(s) && Enabled(s, step) && fd < |s.channels|
    requires step != Listen(fd)
    requires ChannelAfter(true, s, step, fd).listening
    ensures Bytes(ChannelAfter(true, s, step, fd).toClient)
         == Bytes(s.channels[fd].toClient) + Sent(s, step, fd)
  {
    var c := s.channels[fd];
    assert Bytes(c.toClient) + [] == Bytes(c.toClient);
    match step
    case SendInvite(t) =>
      var pc := s.threads[t].pc;
      if pc.to == fd { SendInviteBytes(c, pc.callee, pc.sdp); }
    case Forward(t) =>
      SendBytes(c, Answer(s.threads[t].pc.answer));
      SendBytes(c.CountForward(), Answer(s.threads[t].pc.answer));
    case Exit(t) => SendBytes(c, Bye);
    case _ =>
  }

  lemma SendBytes(c: Channel, p: Push)
    ensures c.listening ==> Bytes(c.Send([p]).toClient) == Bytes(c.toClient) + PushBytes(p)
  {
    BytesAppend(c.toClient, [p]);
    BytesOne(p);
  }

  lemma SendInviteBytes(c: Channel, callee: string, sdp: string)
    requires c.listening && FitsInvite(callee, sdp)
    ensures Bytes(c.SendInvite(true, callee, sdp).toClient)
         == Bytes(c.toClient) + InBuffer(NamedText("INVITE", callee, sdp), 2 * BUFFER_SIZE)
  {
    InviteBytes(callee, sdp);
    BytesAppend(c.toClient, [Invite(callee, sdp)] + [Blank]);
  }

  lemma InviteBytes(callee: string, sdp: string)
    requires FitsInvite(callee, sdp)
    ensures Bytes([Invite(callee, sdp)] + [Blank])
         == InBuffer(NamedText("INVITE", callee, sdp), 2 * BUFFER_SIZE)
  {
    var text := NamedText("INVITE", callee, sdp);
    BytesAppend([Invite(callee, sdp)], [Blank]);
    BytesOne(Invite(callee, sdp));
    BytesOne(Blank);
    assert Frame(text, 2 * BUFFER_SIZE) == Frame(text, BUFFER_SIZE) + Frame("", BUFFER_SIZE);
  }

  /** Reading one frame takes one message, unless it stops the listener. */
  lemma ListenBytes(c: Channel)
    requires c.listening && c.toClient != [] && AllFit(c.toClient) && c.Listen().listening
    ensures |Bytes(c.toClient)| >= BUFFER_SIZE
    ensures Bytes(c.Listen().toClient) == Bytes(c.toClient)[BUFFER_SIZE..]
  {
    PushTextFits(c.toClient[0]);
  }

  ghost predicate AllCarry(steps: seq<Step>) { forall i :: 0 <= i < |steps| ==> Carries(steps[i]) }

  lemma {:induction false} RunFits(steps: seq<Step>)
    requires CanRun(true, INITIAL, steps) && AllCarry(steps)
    ensures StateFits(After(true, INITIAL, steps))
  {
    if steps != [] {
      var k := |steps| - 1;
      var s := After(true, INITIAL, steps[..k]);
      RunFits(steps[..k]);
      Reachable(true, steps[..k]);
      StepFits(s, steps[k]);
    }
  }

  lemma StepFits(s: State, step: Step)
    requires Inv(true, s) && StateFits(s) && Enabled(s, step) && Carries(step)
    ensures StateFits(Next(true, s, step))
  {
    var s' := Next(true, s, step);
    forall t | 0 <= t < |s'.threads| ensures PcFits(s'.threads[t].pc) { ThreadStepFits(s, step, t); }
    forall fd: nat | fd < |s'.channels|
      ensures FitsAnswer(s'.channels[fd].localSdp) && AllFit(s'.channels[fd].toClient) {
      if fd < |s.channels| {
        ChannelStep(true, s, step, fd);
        ChannelStepFits(s, step, fd);
      } else {
        NewChannel(s, step, fd);
      }
    }
  }

  /** Channels are opened by CLIENT alone, and greeted. */
  lemma NewChannel(s: State, step: Step, fd: nat)
    requires Enabled(s, step) && |s.channels| <= fd < |Next(true, s, step).channels|
    ensures step.Connect? && fd == |s.channels|
    ensures var c := Next(true, s, step).channels[fd]; c.toClient == [Hello] && c.localSdp == step.localSdp
  {
  }

  /** On a channel that is not open yet nothing has been sent. */
  lemma SentBefore(s: State, step: Step, fd: nat)
    requires Inv(true, s) && Enabled(s, step) && fd >= |s.channels|
    ensures Sent(s, step, fd)
         == if fd < |Next(true, s, step).channels| then Bytes(Next(true, s, step).channels[fd].toClient) else []
  {
    if fd < |Next(true, s, step).channels| {
      NewChannel(s, step, fd);
      BytesOne(Hello);
    }
    if step.SendInvite? || step.Forward? || step.Exit? {
      assert ThreadFine(s, s.threads[step.t]);
    }
  }

  lemma {:induction false} InFlightIsBytes(steps: seq<Step>, fd: nat)
    requires CanRun(true, INITIAL, steps) && AllCarry(steps)
    ensures var s := After(true, INITIAL, steps);
      if fd < |s.channels| then s.channels[fd].listening ==> InFlight(steps, fd) == Bytes(s.channels[fd].toClient)
      else InFlight(steps, fd) == []
  {
    if steps != [] {
      var k := |steps| - 1;
      var s, step := After(true, INITIAL, steps[..k]), steps[k];
      InFlightIsBytes(steps[..k], fd);
      Reachable(true, steps[..k]);
      RunFits(steps[..k]);
      if fd >= |s.channels| {
        SentBefore(s, step, fd);
      } else {
        ChannelStep(true, s, step, fd);
        if ChannelAfter(true, s, step, fd).listening {
          StillListening(s, step, fd);
          if step == Listen(fd) {
            ListenBytes(s.channels[fd]);
          } else {
            StepBytes(s, step, fd);
          }
        }
      }
    }
  }

  lemma StillListening(s: State, step: Step, fd: nat)
    requires Enabled(s, step) && fd < |s.channels| && ChannelAfter(true, s, step, fd).listening
    ensures s.channels[fd].listening
  {
  }

  /** On every run in which the texts fit their frames: the bytes in flight to a listener, read frame by
      frame, are the texts of the messages the relay model has on their way to it, up to the first that
      stops it, and nothing else if none does. In particular its next recv returns the next message,
      also when the bytes of an EXIT and of what follows share a frame. */
  lemma {:induction false} ListenersReadTheirMessages(steps: seq<Step>, fd: nat)
    requires CanRun(true, INITIAL, steps) && AllCarry(steps)
    requires fd < |After(true, INITIAL, steps).channels| && After(true, INITIAL, steps).channels[fd].listening
    ensures var q := After(true, INITIAL, steps).channels[fd].toClient;
      var frames := ReadFrames(InFlight(steps, fd));
      && Texts(TillStop(q)) <= frames
      && (!StopComing(q) ==> frames == Texts(q))
      && (q != [] ==> frames != [] && frames[0] == Client.PushText(q[0]))
  {
    var q := After(true, INITIAL, steps).channels[fd].toClient;
    RunFits(steps);
    InFlightIsBytes(steps, fd);
    FramesAreTexts(q);
    if q != [] {
      FirstTillStop(q);
    }
  }

  lemma FirstTillStop(q: seq<Push>)
    requires q != []
    ensures Texts(TillStop(q)) != [] && Texts(TillStop(q))[0] == Client.PushText(q[0])
  {
  }
}
